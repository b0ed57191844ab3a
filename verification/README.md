# EigenLayer-AVS: verified models of the operator runtime, the migrations and the aggregator's decisions

A Dafny model of four parts of the EigenLayer-AVS gateway and operator, with proofs that hold for every
input, every interleaving or every reachable state. `dafny verify dfyconfig.toml` checks all of it.

**Storage migrations** (`KeyStore`, `KeyMoves`, `KeySweep`, `SweepRuns`, `KeyScoping`, `ScopingRun`, `KeyWipe`,
`Rewrites`, `WalletRetirement`, `RunOnce`, `Migrations`, `MarkerReads`, `MigrationCosts`, `MigrationRunner`,
`MigrationOrder`). The store is one map from keys to values, iterated in byte order; a fault script says which of
the coming store operations fail, so a run cut short anywhere is an ordinary run. The movers, the wipe, the wallet
retirement and the run-once runner are methods on that store. Each says how many operations it takes, so that what
a start does is decided by the store and the script. The results are about any number of interrupted attempts, in
any order of failure.

**Operator runtime** (`FanIn`, `FairSends`, `Monitoring`, `Advertising`, `TriggerIds`, `BlockAccounting`, `Backoff`,
`Debounce`). Goroutines and channels are a state machine over single steps; time is an explicit clock. `FairSends`
refines the fan-in by the order in which a full Go channel admits blocked senders.

**Operator identity** (`AliasCache`, `AliasRuns`, `HexAddress`, `OperatorAuth`). A lookup is split into begin,
one step per source, and finish, so that concurrent lookups interleave freely.

**Aggregator decisions** (`OperatorTable`, `Sponsorship`, `Withdraw`).

`Strings`, `Numbers` and `Collections` hold the shared theory of colon-separated keys, decimal numbers, byte
order, powers of two and duplicate-free sequences.

## What the proofs found

Where code and comments disagree, the model follows the code. Each of these is a lemma below.

- The runner skips a migration if and only if its marker is present and read without error (`RunOne`). On any store
  a start applies a marked migration again if and only if the fault script makes the read of a present marker fail
  that the main loop reaches, and the position of each such read in the script is given (`Run`). For the wipe a
  failed read deletes every row that scoping has bucketed since (`MisreadWipe`, `WipeAgain`), although its comment
  says it runs exactly once and after a backup. A migration is applied without a backup if and only if the
  pre-check read every marker and then a read of the main loop failed (`Run`).
- Wipe and scope undo each other's intent: every key scoping writes is one the wipe deletes
  (`ScopedIsBucketed`). In the registered order scoping never loses a row, because the wipe has just freed every
  destination (`WipeThenScopeLossless`); on its own it loses exactly the rows that sat at a destination
  (`ScopingLossless`).
- The wipe's comment says no ULID parses as an int64. One does exactly when its first seven characters are zeros
  and the other nineteen are digits of a value in range (`UlidParses`).
- On failure the scoping migration's returned total leaves out what the failing bucket had moved
  (`CountsFallShort`).
- Scaling the shared trigger channel by the number of chains does not reserve room for each: any busy chain can
  fill it and block any other (`OneChainFillsAll`). It cannot happen if and only if fewer than two chains are up
  (`StarvesExactly`). The blocked chain's wait is bounded all the same, because a full Go channel admits its senders
  in order: with p senders before it, its item is in the buffer after exactly p + 1 receives (`BoundedWait`).
- The reconnect backoff is reset by an iteration of two minutes, its own sleep included: at the longest backoff a
  stream that lasted one minute resets it (`ResetExactly`, `ResetWithoutHealth`). A failed connect whose channel
  is recreated retries with no pacing at all (`RecreatedUnpaced`); all other turns are paced (`RateBound`).
- A registration that the time engine rejects removes the registration that was there
  (`RejectedRegistration`).
- Registering the first block task of a chain whose last mark is older than 90 seconds hides the chain until the
  mark that follows (`GapBeforeMark`).
- A lookup that began earlier may commit later and put the older alias back (`OlderOverwritesNewer`). This can
  happen if and only if some source is bound (`GoesBackExactly`), it happens in a run if and only if one lookup
  heard later and finished earlier than another (`NeverBackExactly`), and never when an operator's lookups do not
  overlap (`SequentialNeverBack`).
- An operator that writes its address without `0x` is refused although the address check accepts the spelling
  (`UnprefixedRefused`).
- Cleaning up duplicate operators deletes every record of an address that has several and none under its own key
  (`CleanedLoses`).
- A native withdrawal of "max" also asks the session policy about an amount of 0 (`ExecuteWithdraw`).

## Model

| member | source | states |
|---|---|---|
| `KeyStore.Store.ListKeys` | storage/db.go:392-420 | The keys under a prefix in strict byte order, or a failure that changes nothing |
| `KeyStore.Store.GetByPrefix` | storage/db.go:162-192 | The rows under a prefix in strict key order, or a failure |
| `KeyStore.Store.Exists` | storage/db.go:285-301 | Present exactly when the read succeeds and the key is stored |
| `KeyStore.Store.Put` | storage/db.go:141-146 | Happens completely or not at all |
| `KeyStore.Store.Delete` | storage/db.go:154-159 | Happens completely or not at all |
| `KeyStore.Store.Move` | storage/db.go:368-390 | One atomic rename that replaces what the destination held; a missing source fails |
| `KeyMoves.RenamedPointwise` | storage/db.go:368-390 | After a set of moves each moved value is found at its destination and every other row is as before |
| `KeyMoves.RenamedTwice` | migrations/chain_scoped_keys.go:77-154 | Moving two disjoint sets of keys one after the other is moving their union |
| `KeyMoves.RenamedSize` | migrations/chain_scoped_keys.go:77-154 | The store shrinks by exactly the number of destinations that were taken |
| `KeySweep.SweepMoves` | migrations/chain_scoped_keys.go:77-103 | A mover cut short anywhere has renamed exactly the keys it walked past, and its count is their number |
| `KeySweep.SweepReaches` | migrations/chain_scoped_keys.go:77-103 | A mover never passes a malformed key; unless the store fails it moves every legacy key in front of the first one and ends cleanly when there is none |
| `KeySweep.RunUnfailing` | migrations/chain_scoped_keys.go:33-72 | Under any script without a failure a run of movers never reports one |
| `KeySweep.RunCounted` | migrations/chain_scoped_keys.go:33-103 | A run that the keys allow takes one operation for each pass and one for each key it moves: it completes if and only if none of them fails, with the same result |
| `SweepRuns.Walk` | migrations/chain_scoped_keys.go:77-103 | The walking loop computes the specified sweep: store, failures consumed, count and why it ended |
| `SweepRuns.RunPass` | migrations/chain_scoped_keys.go:77-154 | Listing then walking one bucket computes the specified pass |
| `SweepRuns.RunPasses` | migrations/chain_scoped_keys.go:33-72 | The buckets in order, stopping at the first error and dropping that bucket's count |
| `SweepRuns.RunMoves` | migrations/chain_scoped_keys.go:33-72 | Any run renames a subset of the reachable keys, all of them unless the store failed, and reports all but the failing bucket's moves |
| `SweepRuns.AllReached` | migrations/chain_scoped_keys.go:33-72 | With no malformed key every legacy key is reachable |
| `SweepRuns.AttemptsConverge` | migrations/chain_scoped_keys.go:33-154 | Any number of attempts cut short anywhere, then one the store does not fail, reach the settled store |
| `SweepRuns.SettledIsStable` | migrations/chain_scoped_keys.go:33-154 | From the settled store no run moves or reports anything |
| `SweepRuns.CountsFallShort` | migrations/chain_scoped_keys.go:49-71 | The counts of an attempt and of the run completing it miss exactly the failing bucket's moves |
| `KeyScoping.ScopedKeyInverse` | migrations/chain_scoped_keys.go:96-121 | Inserting the chain id adds one colon and dropping the second segment undoes it |
| `KeyScoping.TaskVerdictMeaning` | migrations/chain_scoped_keys.go:84-100 | A status bucket's key is renamed to itself with the chain id inserted exactly when it has two colons, else skipped |
| `KeyScoping.UserVerdictMeaning` | migrations/chain_scoped_keys.go:112-125 | A user key is renamed with three colons, skipped with more and refused with fewer |
| `KeyScoping.HistoryVerdictMeaning` | migrations/chain_scoped_keys.go:137-151 | A history key is renamed with two colons, skipped with more and refused with fewer |
| `KeyScoping.VerdictMeaning` | migrations/chain_scoped_keys.go:77-173 | Split, classify and join together are the insertion of one segment, for all seven buckets |
| `KeyScoping.ScopedKeySettled` | migrations/chain_scoped_keys.go:160-173 | No destination is legacy or malformed in any bucket |
| `KeyScoping.BucketsDisjoint` | migrations/chain_scoped_keys.go:42-48 | A key lies under one bucket prefix at most |
| `ScopingRun.ScopeInjective` | migrations/chain_scoped_keys.go:96-119 | Two keys with the same destination are the same key |
| `ScopingRun.ScopeCoherent` | migrations/chain_scoped_keys.go:33-154 | No bucket's mover touches, refuses or re-creates what another one handles |
| `ScopingRun.MigrateKeysToChainScoped` | migrations/chain_scoped_keys.go:33-72 | The migration computes the specified run on every store and every pattern of failures |
| `ScopingRun.ScopingIsRename` | migrations/chain_scoped_keys.go:33-154 | On any store without malformed keys the result is the injective rename of the legacy keys, all else untouched, and the count is exact |
| `ScopingRun.ScopeMovesClean` | migrations/chain_scoped_keys.go:33-154 | The rename is injective and no destination is itself legacy |
| `ScopingRun.ScopingLossless` | migrations/chain_scoped_keys.go:33-154 | No row is lost if and only if no destination was taken |
| `ScopingRun.ScopingConverges` | migrations/chain_scoped_keys.go:23-26 | Interrupted attempts followed by one good run give the store of a single run, malformed keys included |
| `ScopingRun.ScopingIdempotent` | migrations/chain_scoped_keys.go:23-26 | A further run changes nothing and returns 0 |
| `ScopingRun.ScopingSucceeds` | migrations/chain_scoped_keys.go:33-72 | Under any script without a failure it succeeds if and only if the chain id is positive and no key is malformed |
| `ScopingRun.ScopingCounted` | migrations/chain_scoped_keys.go:33-154 | Without malformed keys it completes if and only if none of seven plus the number of legacy keys operations fails |
| `ScopingRun.ScopingRefuses` | migrations/chain_scoped_keys.go:33-154 | With a malformed key it never completes, under any script |
| `ScopingRun.ScopingWellFormed` | migrations/chain_scoped_keys.go:33-154 | It creates no malformed key |
| `KeyWipe.BucketedShape` | migrations/wipe_chain_bucketed_task_keys.go:39-51 | A key is classified as bucketed if and only if its namespace is one of the three and its second segment parses as int64 |
| `KeyWipe.ShortKeysKept` | migrations/wipe_chain_bucketed_task_keys.go:41-44 | Keys of fewer than three segments are kept |
| `KeyWipe.LettersNeverParse` | migrations/wipe_chain_bucketed_task_keys.go:30-33 | A segment with a non-digit past its first character is never taken for a chain id |
| `KeyWipe.UlidParses` | migrations/wipe_chain_bucketed_task_keys.go:30-33 | A 26-character id parses as int64 if and only if it is seven zeros and nineteen digits in range |
| `KeyWipe.ScanBucketed` | migrations/wipe_chain_bucketed_task_keys.go:40-53 | The scan collects exactly the bucketed keys of a listing, once each |
| `KeyWipe.DeleteAll` | migrations/wipe_chain_bucketed_task_keys.go:59-66 | Deletes a prefix of the list, all of it if and only if none of that many operations fails |
| `KeyWipe.WipeChainBucketedTaskKeys` | migrations/wipe_chain_bucketed_task_keys.go:37-67 | Removes only bucketed rows, counts them, and removes all of them if and only if none of three plus their number operations fails |
| `KeyWipe.WipeExact` | migrations/wipe_chain_bucketed_task_keys.go:37-67 | A successful wipe keeps exactly the unbucketed rows with their values |
| `KeyWipe.WipeResumes` | migrations/wipe_chain_bucketed_task_keys.go:35-67 | A wipe cut short and run again equals one wipe, the counts add up, and a run after a complete one finds nothing |
| `KeyWipe.WipeSeries` | migrations/wipe_chain_bucketed_task_keys.go:35-67 | So does any number of wipes cut short anywhere, followed by a complete one |
| `WalletRetirement.RetireRow` | migrations/retire_legacy_factory_wallets.go:56-91 | A row is rewritten exactly when it is a due wallet and neither of its two operations fails |
| `WalletRetirement.RetireLegacyFactoryWallets` | migrations/retire_legacy_factory_wallets.go:48-103 | Retires only due wallets, counts them, and all of them if and only if none of one plus twice their number operations fails |
| `WalletRetirement.RetireExact` | migrations/retire_legacy_factory_wallets.go:28-103 | Due wallets come out retired and hidden, every other row is unchanged and nothing due is left |
| `WalletRetirement.RetireResumes` | migrations/retire_legacy_factory_wallets.go:85-91 | Cut short anywhere and run again equals one run, and the counts add up |
| `WalletRetirement.RetireSeries` | migrations/retire_legacy_factory_wallets.go:85-91 | So does any number of runs cut short anywhere, followed by a complete one, with counts adding up to the number of legacy wallets |
| `Migrations.StepCore` | core/migrator/migrator.go:80-102 | No migration reads or writes a completion marker |
| `Migrations.StepLeavesWork` | core/migrator/migrator.go:89-96 | Each migration cut short leaves the same complete outcome to be reached |
| `Migrations.WorkKeepsDestiny` | core/migrator/migrator.go:80-102 | Working on the first unmarked migration never changes where the store is headed |
| `Migrations.MarkKeepsDestiny` | core/migrator/migrator.go:98-101 | Nor does marking a complete one |
| `MigrationRunner.Apply` | core/migrator/migrator.go:89-96 | One migration's effect; it succeeds if and only if it is applicable and none of its operations fails |
| `MigrationRunner.PreCheckPasses` | core/migrator/migrator.go:59-68 | Nothing is pending if and only if every marker is present and none of these reads fails |
| `MigrationRunner.AnyPending` | core/migrator/migrator.go:59-68 | The pre-check loop computes that, and which failures it used up |
| `MigrationRunner.RunOne` | core/migrator/migrator.go:80-102 | A migration runs if and only if its marker is missing or the read of it fails; it succeeds if and only if it is applicable and neither its operations nor the write of its marker fail; it is then applied and marked, and nothing else is marked |
| `MigrationRunner.RunAll` | core/migrator/migrator.go:80-104 | The main loop: on any store it misreads a marker if and only if the script fails a read of a present marker at its stated position and every turn before goes through, and else succeeds if and only if every turn goes through; on a store with every marker a single failed read applies exactly that migration again |
| `MigrationRunner.Run` | core/migrator/migrator.go:55-105 | Every start keeps the final outcome unless a marker was misread; on success all are marked and the rows are the outcome with the misread ones applied again; what is misread and whether it succeeds are decided by store and script as for the main loop; a pending start without backup changes nothing; a migration runs without backup if and only if the pre-check passed and a later read failed; any script without a failure misreads nothing and, with a backup, succeeds |
| `MigrationRunner.Starts` | core/migrator/migrator.go:55-105 | Any number of starts cut short anywhere, backed up or not: unless some start misread a marker, which no script without a failure does, the store stays headed for the first start's outcome and is there, all marked, once the last start succeeds |
| `MigrationOrder.RegisteredDistinct` | aggregator/aggregator.go:282-299 | The registered migrations never share a marker |
| `MigrationOrder.ScopedIsBucketed` | migrations/wipe_chain_bucketed_task_keys.go:30-33 | Every key scoping writes is one the wipe deletes |
| `MigrationOrder.ScopeThenWipe` | migrations/chain_scoped_keys.go:33-72 | Scope then wipe leaves exactly the rows that were neither legacy-shaped nor bucketed |
| `MigrationOrder.WipeThenScope` | migrations/chain_scoped_keys.go:33-72 | Wipe then scope, row by row: bucketed rows are gone, legacy rows sit under the chain id with their values, the rest is unchanged, and there is nothing else |
| `MigrationOrder.WipeThenScopeLossless` | aggregator/aggregator.go:282-299 | After a wipe scoping loses nothing and the only bucketed rows are the ones it made |
| `MigrationOrder.WipeAgain` | core/migrator/migrator.go:80-87 | A second wipe after the registered order deletes every row scoping moved |
| `MigrationOrder.FreshStart` | aggregator/aggregator.go:282-299 | Where a store with all three migrations pending ends up |
| `MigrationOrder.FreshRows` | aggregator/aggregator.go:282-299 | The same row by row: bucketed rows gone, legacy rows under the chain id, legacy wallets retired and hidden, every other row as it was |
| `MigrationOrder.MisreadWipe` | core/migrator/migrator.go:55-105 | With everything applied, a start in which only the main loop's read of the wipe's marker fails succeeds without a backup and deletes every bucketed row |
| `MigrationOrder.WipeChanges` | migrations/wipe_chain_bucketed_task_keys.go:35-67 | Running the wipe again changes the rows if and only if some row is bucketed |
| `FanIn.StepConserves` | operator/worker_loop.go:353-380 | No step of any participant loses, duplicates, reorders or mis-tags anything of a chain |
| `FanIn.RunSound` | operator/worker_loop.go:353-380 | Every interleaving keeps conservation, channel capacities and known tags |
| `FanIn.Conservation` | operator/worker_loop.go:353-380 | Per chain, consumed followed by in flight is exactly what was produced, across cancellation too |
| `FanIn.NeverStuck` | operator/worker_loop.go:353-380 | Before cancellation some forwarding step is enabled while anything is undelivered |
| `FanIn.Delivery` | operator/worker_loop.go:353-380 | Under every schedule exactly the stated number of forwarding steps delivers everything, in order |
| `FanIn.RunWork` | operator/worker_loop.go:353-380 | Over every run, cancellation included, the forwarding steps still to be made are those at the start plus three for each item produced less those made |
| `FanIn.Deliverable` | operator/worker_loop.go:353-380 | Such a complete delivery exists from every reachable uncancelled state |
| `FanIn.BacklogBound` | operator/worker_loop.go:189-195 | A chain is never further behind than its queue, one item and the shared buffer |
| `FanIn.OneChainFillsAll` | operator/worker_loop.go:189-195 | For any chains and any two of them, one alone can fill the whole shared buffer and block the other's send |
| `FanIn.StarvesExactly` | operator/worker_loop.go:189-195 | Some run does that if and only if at least two chains are up |
| `FairSends.RunRefines` | operator/worker_loop.go:353-380 | With blocked senders admitted in order every run is still a run of the fan-in |
| `FairSends.FairConservation` | operator/worker_loop.go:353-380 | So each chain's items are conserved in it too |
| `FairSends.LineGrows` | operator/worker_loop.go:353-380 | Over every run what was offered is consumed in the order of the offers, one item for each receive |
| `FairSends.BoundedWait` | operator/worker_loop.go:189-195 | A blocked chain with p others before it, fewer than there are chains, has its item in the buffer if and only if more than p receives were made, and consumed if and only if more than p and a whole buffer were |
| `Monitoring.Operator.InitChain` | operator/worker_loop.go:218-346 | One configured chain: skipped, brought up, or found to be a duplicate |
| `Monitoring.Operator.InitChains` | operator/worker_loop.go:197-398 | On success the chain order is duplicate-free, equal to the sets' keys and in configured order; a duplicate is reported if and only if an entry resolves to a chain already up |
| `Monitoring.RemoveEverywhere` | operator/operator.go:251-276 | Removes a task from every chain's set and changes nothing else, in any map order |
| `Monitoring.Operator.AddTimeCheck` | core/taskengine/trigger/time.go:172-192 | A rejected time registration still drops the earlier one |
| `Monitoring.Operator.HandleMonitor` | operator/worker_loop.go:1037-1165 | A registration reaches only the set of its chain (0 is the first), and an unsupported chain changes nothing |
| `Monitoring.Operator.HandleRemoval` | operator/process_message.go:47-76 | A removal clears its task from every set; an unusable id changes nothing |
| `Monitoring.Operator.Handle` | operator/worker_loop.go:1034-1168 | Every message or exhausted answer has its stated effect on every set and task |
| `Monitoring.Operator.HandleAll` | operator/worker_loop.go:1034-1168 | Over every log, a task is in a set if and only if a successful add came after the last message dropping it |
| `Monitoring.RegisteredNext` | operator/worker_loop.go:1034-1168 | How one more message changes what a log says |
| `Monitoring.RemovalClears` | operator/process_message.go:49-76 | A removal clears the named task from every chain and leaves others alone |
| `Monitoring.UnsupportedChain` | operator/operator.go:160-170 | A block or event registration for an unknown chain changes nothing |
| `Monitoring.RejectedRegistration` | core/taskengine/trigger/time.go:181-192 | A rejected registration changes nothing except that the time set loses the same task |
| `Advertising.SupportedChainIDs` | operator/operator.go:198-217 | The loop yields the advertised chains in configured order |
| `Advertising.AdvertisedIff` | operator/operator.go:198-217 | A configured positive chain is missing if and only if it has block work and no fresh mark |
| `Advertising.FreshByRun` | operator/operator.go:388-411 | Freshness after any run, read off the run's marks and elapsed time |
| `Advertising.MissingExactly` | operator/operator.go:183-217 | After every run from boot a chain is missing if and only if the run left it block work and neither boot nor a mark is within 90 s |
| `Advertising.IdleAdvertised` | operator/operator.go:189-195 | An idle chain is always advertised |
| `Advertising.MarkAdvertises` | operator/worker_loop.go:1096-1115 | After a mark the chain stays advertised for 90 s in every continuation |
| `Advertising.GapBeforeMark` | operator/worker_loop.go:1096-1115 | Between add and mark a chain is missing if and only if its last mark is older than 90 s |
| `TriggerIds.ValidTaskIDs` | operator/process_message.go:16-45 | The three patterns accept exactly eight or more letters, digits, hyphens and underscores, all colon-free |
| `TriggerIds.MarkerIDInjective` | operator/worker_loop.go:428 | Time and block ids are injective for all ids, colons included |
| `TriggerIds.EventIDInjective` | operator/worker_loop.go:700 | Event ids are injective whenever the hashes are colon-free |
| `TriggerIds.EventMeetsMarker` | operator/worker_loop.go:585 | An event id equals a time or block id if and only if the second id embeds the first and the hash |
| `TriggerIds.EventNeverMarker` | operator/process_message.go:16-45 | For accepted ids the two kinds never meet |
| `TriggerIds.EventIDNeedsColonFree` | operator/worker_loop.go:700 | Without colon-free hashes different events share an id |
| `BlockAccounting.Accounting.Record` | operator/worker_loop.go:498-514 | The doubling loop ends and logs if and only if the count is 10 times a power of two |
| `BlockAccounting.Accounting.CleanUp` | operator/worker_loop.go:124-142 | Sort-and-delete leaves exactly the blocks with fewer than ten larger ones, lists unchanged |
| `BlockAccounting.CleanUpKeepsNewest` | operator/worker_loop.go:128-141 | At most ten blocks are left, none below a dropped one |
| `BlockAccounting.LogPointsClosed` | operator/worker_loop.go:504-513 | floor(log2(n/10))+1 log points up to n, none below ten |
| `BlockAccounting.LogsOverRun` | operator/worker_loop.go:498-514 | Over every run, clean-ups included, a block's list is the latest part of what fired at it and its log lines are the log points of all its lives |
| `BlockAccounting.OneLife` | operator/worker_loop.go:498-514 | If it is never dropped, its list is all that fired at it and it logs floor(log2(n/10))+1 times from ten tasks on |
| `Backoff.StreamLoop` | operator/worker_loop.go:782-1030 | The reconnect loop's clock, backoff and last connect time |
| `Backoff.BackoffLevel` | operator/worker_loop.go:844-849 | The backoff is min(2^k, 60) s for k closes since the last reset, in every run |
| `Backoff.SleepBounds` | operator/worker_loop.go:36-48 | The jitter range is never empty; a sleep is at least d, below 1.25 d and below 75 s |
| `Backoff.ResetExactly` | operator/worker_loop.go:792-797 | The next turn resets if and only if this one, sleep included, took two minutes |
| `Backoff.ResetWithoutHealth` | operator/worker_loop.go:41 | Two healthy minutes always reset, but at the longest backoff one minute does too |
| `Backoff.ClosesTakeTime` | operator/worker_loop.go:955-962 | n closes without a reset take at least the sum of the first n backoffs |
| `Backoff.RateBound` | operator/worker_loop.go:782-1030 | In every run, resets included, n turns other than recreated ones take at least (151 n - 569) / 6 seconds |
| `Backoff.RateBoundTight` | operator/worker_loop.go:782-1030 | That rate is attained for arbitrarily long runs |
| `Backoff.RecreatedUnpaced` | operator/worker_loop.go:864-928 | From any state any number of turns ending in a recreated channel need no time |
| `Debounce.Debouncer.ShouldLogError` | operator/worker_loop.go:52-80 | Decides from its own class's memory and changes only that |
| `Debounce.Debouncer.Drive` | operator/worker_loop.go:52-80 | Over mixed calls each class is decided by its own calls alone |
| `Debounce.Remembered` | operator/worker_loop.go:52-80 | The remembered type is the latest call's; the remembered time is that of the last logged call |
| `Debounce.SuppressedExactly` | operator/worker_loop.go:60-64 | Suppressed if and only if it repeats, with nothing in between, an error logged less than three minutes before |
| `Debounce.LogBound` | operator/worker_loop.go:52-80 | Logs are at most type changes plus elapsed/3 min plus 1 |
| `AliasCache.Consult` | aggregator/operator_alias.go:247-266 | The source loop finds the first declared alias and knows whether any source answered or failed |
| `AliasCache.ConcludesZero` | aggregator/operator_alias.go:268-294 | "No alias" is concluded if and only if every bound source answered zero and one did |
| `AliasCache.ConcludesAlias` | aggregator/operator_alias.go:251-294 | An alias is concluded if and only if some source declared one |
| `AliasCache.AliasResolver.AliasFor` | aggregator/operator_alias.go:228-295 | Fresh entry, complete lookup or stale fallback; only a complete lookup changes the cache |
| `AliasCache.MergeAliasSources` | aggregator/operator_alias.go:91-124 | Fails if and only if nothing bound; otherwise every success is a source and every failure is reported |
| `AliasRuns.StepGood` | aggregator/operator_alias.go:228-295 | Every step of every lookup keeps the cache equal to the latest justified commits and ties each pending and served alias to the cache it read |
| `AliasRuns.CachedIsJustified` | aggregator/operator_alias.go:228-295 | In every interleaving the cache holds the latest commit: a zero means all bound sources answered zero in that lookup, an alias that a source declared it in it |
| `AliasRuns.ServedIsJustified` | aggregator/operator_alias.go:228-295 | Every alias ever served is a justified commit: a fresh one was heard less than the TTL plus its lookup's duration before, a looked-up one is its own lookup's commit, any other is the last commit made before the step of the run that began its lookup |
| `AliasRuns.CacheWrites` | aggregator/operator_alias.go:268-292 | Only a finished lookup with a complete view writes the cache; a fallback never does |
| `AliasRuns.NeverBackExactly` | aggregator/operator_alias.go:290-292 | Over every run an operator's cached answer never goes back if and only if none of its commits was heard later and finished earlier than another |
| `AliasRuns.SequentialNeverBack` | aggregator/operator_alias.go:228-295 | It never goes back when the operator's lookups do not overlap |
| `AliasRuns.OlderOverwritesNewer` | aggregator/operator_alias.go:290-292 | With any bound source an earlier lookup can commit later and restore the older alias |
| `AliasRuns.GoesBackExactly` | aggregator/operator_alias.go:228-295 | Some run does that if and only if a source is bound |
| `HexAddress.SameAddress` | aggregator/auth.go:47-50 | The text comparison is address equality, for claims written with 0x only |
| `OperatorAuth.ApprovedExactly` | core/config/helpers.go:29-47 | Approval is list membership, for claims written with 0x only |
| `OperatorAuth.VerifiedExactly` | aggregator/auth.go:31-71 | Any claimed hex address is verified if and only if the header's signer is that address and it is written with 0x, or the signer is the operator's non-zero alias |
| `OperatorAuth.AuthorizedExactly` | aggregator/operator_auth_interceptor.go:67-99 | Let through if and only if the claim is a 0x address of an approved operator and the signer speaks for it |
| `OperatorAuth.OnlyHealthCheckIsPublic` | aggregator/operator_auth_interceptor.go:30-36 | Every other unary call is served only if its signer speaks for an approved operator |
| `OperatorAuth.UnprefixedRefused` | aggregator/operator_auth_interceptor.go:79-96 | A claim without 0x is always refused |
| `OperatorAuth.AdmittedSigner` | aggregator/auth.go:52-71 | End to end over all cache interleavings: an admitted request was signed by the operator or a key some source declared for it |
| `OperatorAuth.AuthenticatedStream.RecvMsg` | aggregator/operator_auth_interceptor.go:145-157 | The first authorized message opens the stream; nothing is delivered before |
| `OperatorAuth.AuthenticatedStream.RecvAll` | aggregator/operator_auth_interceptor.go:134-157 | Over a stream's life a message is delivered if and only if it or an earlier one was authorized |
| `OperatorTable.Checkin` | aggregator/pool.go:120-142 | Writes one record under the address's own key, or nothing |
| `OperatorTable.GroupByAddress` | aggregator/pool.go:184-194 | Groups exactly the decodable rows by the address they record, each key once |
| `OperatorTable.CleanupDuplicateOperators` | aggregator/pool.go:178-213 | Deletes only records of an address that has several and never the one under its own key; all of them when deletes succeed |
| `OperatorTable.CleanedAtMostOne` | aggregator/pool.go:196-210 | At most one record per address is left and an address-keyed one always survives |
| `OperatorTable.CleanedLoses` | aggregator/pool.go:196-210 | An address loses every record if and only if it had several and none under its own key |
| `OperatorTable.CleanedOnlyKeyed` | aggregator/pool.go:178-213 | If every recorded address has its address-keyed record, only those are left |
| `OperatorTable.CheckedInOnce` | aggregator/pool.go:140-141 | A check-in leaves one record of its address if and only if there was none elsewhere |
| `OperatorTable.CheckInsKeepOne` | aggregator/pool.go:120-142 | Any run of check-ins after that keeps exactly one record per address, the latest |
| `OperatorTable.FirstPerAddress` | aggregator/pool.go:144-174 | The listing loop keeps the first decodable row of each address |
| `OperatorTable.GetAll` | aggregator/pool.go:144-174 | Each recorded address is listed exactly once, as its record of least key |
| `OperatorTable.ListedAsLatest` | aggregator/pool.go:120-174 | After clean-up and any check-ins each address that checked in is listed once, as its latest check-in |
| `Sponsorship.FirstMatch` | aggregator/gas_manager_webhook.go:160-178 | The scan stops at the first match and passed none before it |
| `Sponsorship.OwnerOfSmartWallet` | aggregator/gas_manager_webhook.go:154-182 | The owner in the matching key that is least in key order |
| `Sponsorship.MatchesExactly` | aggregator/gas_manager_webhook.go:155-168 | The scan matches exactly the keys of that wallet on that chain |
| `Sponsorship.ChainsApart` | aggregator/gas_manager_webhook.go:155 | No other chain's key is under a chain's prefix, decimal prefixes included |
| `Sponsorship.OwnerLookup` | aggregator/gas_manager_webhook.go:146-182 | Found if and only if the wallet is stored on that chain, and then one of its owners |
| `Sponsorship.SingleOwner` | aggregator/gas_manager_webhook.go:146-182 | With one owner per chain the lookup inverts the wallet map |
| `Sponsorship.KnownFeeChainIDs` | aggregator/gas_manager_webhook.go:335-355 | Duplicate-free and exactly the positive ids of the gateway and its chains |
| `Sponsorship.WorstIsMax` | aggregator/gas_manager_webhook.go:308-321 | The reported amount is the maximum owed over the chains |
| `Sponsorship.OwnerWithinCreditLimit` | aggregator/gas_manager_webhook.go:277-322 | Within if and only if the limit is known, the list is not empty and every ledger answers within it; the amount is then the maximum |
| `Sponsorship.HandleGasManagerWebhook` | aggregator/gas_manager_webhook.go:224-270 | Approved if and only if the request decodes and is admissible, the sender has a stored owner on its chain and that owner is within the limit on every known chain |
| `Withdraw.SaltRule` | aggregator/rpc_server.go:106-156 | No salt only for an EOA-7702 record; a salt only if recorded or 0 for the salt-0 address; refused exactly otherwise |
| `Withdraw.NativeAmount` | aggregator/rpc_server.go:443-466 | The balance under max with the preflight repeated for it, else the covered request |
| `Withdraw.TokenAmount` | aggregator/rpc_server.go:467-518 | The token balance under max, else the covered request; malformed and zero tokens are refused |
| `Withdraw.FinalAmount` | aggregator/rpc_server.go:443-518 | An amount the balance read covers and, for native max, the policy permits; none only if no positive amount is covered |
| `Withdraw.ExecuteWithdraw` | aggregator/rpc_server.go:309-565 | Every send is positive, within the balance read, equal to it under max, preflighted with that amount if native and sponsored if also max; a lawful send is always reached unless the early checks refuse |
| `Withdraw.LawfulUnique` | aggregator/rpc_server.go:309-565 | A payload has at most one lawful send |

## Left out

- Dialing and transport: gRPC, RPC clients, WebSocket subscriptions, metrics, REST routes, the REPL. Their answers are parameters.
- Signature recovery, BLS, Keccak and salt-0 derivation are parameters; JSON and protobuf encodings are not modelled, a stored value is a record or undecodable.
- The trigger engines' matching and scheduling; a registration is a set insertion whose acceptance is a parameter.
- Immediate-trigger execution, block-header enrichment and notification payloads.
- `flexibleInt64` decoding, chain registry, session-policy lifecycle, workflow validation and deep health: only easy members beside the above.
- The epoch window of the authorization header, which lives in `core/auth`; it is part of the recovered-signer parameter.
- Backups are a success flag; the time stamp in a completion marker is not modelled.
- Sponsorship.OwnerOfSmartWallet: the owner is the key segment; its conversion to an address is not modelled.
- Sponsorship.OwnerWithinCreditLimit: the price conversion of the limit is a parameter that may be missing.
- OperatorAuth.ApprovedExactly: the built-in default list and a configured list are the same list parameter.
- WalletRetirement.RetireRow: the workflow count is only a store read that may fail; its value goes to a log line.
- FairSends.BoundedWait: that blocked senders are admitted in the order they blocked is the Go runtime's behaviour, not this repository's.
- MigrationRunner.Run: an operation is one transaction of the store, so the work inside a transaction cannot fail in the middle.
- FanIn.Conservation: channels and goroutines are values of a state machine, not Dafny objects.
- AliasRuns.ServedIsJustified: reading the cache and comparing the clock at the start of a lookup is one step.
- BlockAccounting.LogsOverRun: block numbers of different chains share one list, as in the source.
- HexAddress.SameAddress: case folding is that of ASCII, which is all a hex address can contain.
