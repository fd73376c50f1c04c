# Verified model of the Flow wallet API

A Dafny model of the stateful parts of the wallet service, with proofs of what they keep. It covers
the job pools, the chain event listener, deposit registration, account and proposal keys, the token
contracts, the idempotency middleware, and the rewriting and naming of token templates.

`dafny verify dfyconfig.toml` checks everything.

## Contents

| files | component |
|---|---|
| `JobModel`, `LeaseProtocol`, `LeaseResults`, `LeaseOutcomes`, `WorkerPool` | Job rows; any number of pools over one table as a state machine whose queued copies may be stale or duplicated; results over whole runs; the store and the pool as mutable objects, tied to the state machine |
| `ChainListener`, `ChainEvents` | Height windows under 64-bit arithmetic, with failed and rolled-back ticks; the listener as an object over a chain of events |
| `Deposits`, `TokenService`, `ExactlyOnce` | The registration of deposits and withdrawals; the service as an object over its three tables; listener and registration together |
| `KeyLedger`, `AccountService` | The keys of an account on chain and in the database; the service's loops over them |
| `KeySelection`, `Signing`, `AdminKeys` | Least-recently-used selection; selection and ledger together; the proposal key table of the admin account |
| `TokenLedger`, `BurnTree`, `TokenContracts`, `TestTokens` | Supply accounting of the FUSD, FlowToken and TestToken contracts, which implement the Flow Fungible Token standard (section "`Vault` resource interface"); burning nested resources; the contracts as objects with mutable vaults |
| `Idempotency` | Two key stores and the middleware |
| `Replacer`, `TokenTemplates`, `Addresses`, `EventTypes` | Multi-string replacement, the template pipeline, addresses, and event type strings |

Where the source updates state in place, a class has the source's methods and each method's `ensures`
gives its whole effect as a function of the old state; the lemmas are about those functions. Every
database table is a map or a sequence whose writes are atomic. Time is a number that each operation
is given or that a clock event advances.

## What turned out not to hold

For each, the condition under which it does hold, for all inputs, and an input for which it does not.

- Without the overrun hypothesis (every `UpdateJob` is issued less than the accepted grace period after the
  writer's own last write of that row) a COMPLETE row can become ERROR or FAILED. Exactly the overruns do that:
  `LeaseResults.ClobbersExactly`, `LeaseResults.OverrunClobbers`.
- Exclusion is about unexpired leases: the hypothesis bounds when a worker may write, not how long it may run. Two
  workers execute a job at once exactly when it is accepted while one that outstayed its lease still executes it:
  `LeaseResults.TwoHoldersExactly`, `LeaseResults.LeaseStolen`.
- A job's list of errors is not complete, although its counter is. It is exactly when no accepted copy carries an
  outdated list: `LeaseResults.ErrorLogExactly`, `LeaseResults.ErrorLogCanBeLost`.
- A redelivered deposit is stored again exactly when the type its transaction is stored with is not the token's, as
  for every NFT deposit that did not originate in the wallet: `Deposits.IdempotentExactly`,
  `Deposits.OutsideNftStoredTwice`.
- A second deposit of one token to one account in one transaction is taken for a redelivery
  (`Deposits.SecondDepositOfTransactionSwallowed`). The number of rows does not depend on the order of delivery
  (`ExactlyOnce.ExactlyOnce`), but which of two such deposits is recorded does, exactly if their rows differ and their
  key had none: `Deposits.SameRowsExactly`, `ExactlyOnce.ExactlyOnceRows`.
- A deposit event handled between a withdrawal's seal and its last write is recorded twice, and one handled
  afterwards once: `Deposits.DepositDuringWithdrawal`, `Deposits.DepositAfterWithdrawal`.
- Synchronising key counts can number clones wrongly when the highest on-chain index is not stored:
  `KeyLedger.SyncExactly`, `KeyLedger.SyncAfterRevokingLast`.
- A revocation whose result is lost leaves a dead key in use: `KeyLedger.RevokeKeyExactly`, `KeyLedger.LostRevocation`.
- Passing the proposal key check does not make the keys in use live. They are exactly when none up to the last of
  them was revoked since the table was built: `AdminKeys.RowsLiveExactly`, `AdminKeys.CheckAcceptsStaleTable`.
- A rebuild counts in 16 bits: `AdminKeys.AddsJustTheMissing`, `AdminKeys.CountWraps`.
- A fresh listener starts at the configured height exactly if that is not 1, which is taken for none:
  `ChainListener.StartsAsConfiguredExactly`.
- A window is not sound if its 64-bit addition wraps: `ChainListener.WindowSoundExactly`, `ChainListener.WrappedWindow`.
- A token whose name is a suffix of `FungibleToken` or `NonFungibleToken` spoils the standard imports of its
  templates: `TokenTemplates.StandardImportExactly`, `TokenTemplates.TokenNamedToken`.
- A token name with a character that is special in a pattern may find another token: `EventTypes.FoundExactly`,
  `EventTypes.Shadowed`, `EventTypes.UnderscoreShadowed`.

## Model

| member | source | states |
|---|---|---|
| JobModel.SchedulableExactly | jobs/store_gorm.go:78-93 | the poller's filter returns a row exactly when it is not terminal and the grace period of its state has passed since its last write |
| JobModel.SchedulableStaysAcceptable | jobs/store_gorm.go:44-53 | a row the filter returned can be accepted at any later time until somebody writes it |
| LeaseProtocol.StepKeepsInv | jobs/workerpool.go:154-206 | every step of a creator, poller or worker that does not overrun its lease keeps the invariant: live holders hold the stored row in state ACCEPTED, no two of them one job, and a job being created is known to nobody else |
| LeaseProtocol.RunKeepsInv | jobs/workerpool.go:364-426 | the invariant holds after every run without overruns |
| LeaseProtocol.PollKeepsPendingNotQueued | jobs/workerpool.go:284-295 | the poller does not queue a job whose creator's lease is running |
| LeaseProtocol.AcceptKeepsOneLiveHolder | jobs/store_gorm.go:55-76 | an accept, however stale the copy, never makes a second live holder of a job |
| LeaseResults.LeaseExclusion | jobs/store_gorm.go:44-76 | in every run without overruns, of any number of pools with stale and duplicated copies, crashes and polls, at most one worker holds an unexpired lease on a job |
| LeaseResults.TwoHoldersExactly | jobs/store_gorm.go:44-76 | in every run without overruns at most one worker executes a job at any point if and only if the job is never accepted while a worker whose lease has run out still executes it |
| LeaseResults.SoleHolder | jobs/workerpool.go:364-415 | in particular at a point at which no holder of the job has outstayed its lease |
| LeaseResults.TerminalForever | jobs/workerpool.go:395-415 | without overruns a COMPLETE or FAILED row never changes again, in any field |
| LeaseOutcomes.OutcomeRecorded | jobs/workerpool.go:388-415 | after any run without overruns a COMPLETE row carries the result and transaction of its last execution, which succeeded, and no error; an ERROR or FAILED row those of the last execution and its message, ERROR while executions are left, FAILED for a permanent failure or when none are; in any other state nothing but ordinary errors ended before |
| LeaseOutcomes.EndsOnce | jobs/workerpool.go:395-411 | a job succeeds or fails permanently at most once; it is COMPLETE exactly when it has succeeded, and FAILED once it has failed permanently |
| LeaseOutcomes.ContentKept | jobs/workerpool.go:154-173 | every row and every copy, however stale, has the type and age the job was created with, and until an execution ends the transaction and the report its creator gave it, and no error |
| LeaseResults.ExecCountExact | jobs/store_gorm.go:68-70 | the stored execution counter equals the number of accepts of the job in the run |
| LeaseResults.RetryBound | jobs/workerpool.go:388-415 | a job executes with an ordinary error at most one time more than the configured maximum (a negative maximum counts as zero), whatever chain errors, crashes and missing executors interleave |
| LeaseResults.RetriesExactly | jobs/workerpool.go:395-399 | if all executions fail ordinarily, an idle job is FAILED exactly when it has failed maximum plus one times, and is never COMPLETE |
| LeaseResults.NoJobLost | jobs/workerpool.go:284-295 | from every reachable state an unfinished row left alone for its grace period can be polled and accepted by any idle worker, which executes it once more |
| LeaseResults.ClobbersExactly | jobs/workerpool.go:395-415 | after any run without overruns the next step changes a COMPLETE or FAILED row if and only if it is an `UpdateJob` of that job, and every such step is an overrun |
| LeaseResults.OverrunClobbers | jobs/store_gorm.go:40-42 | a concrete such run: a slow worker's late write replaces COMPLETE |
| LeaseResults.ErrorLogExactly | jobs/store_gorm.go:68-70 | in every run without overruns the stored error list holds the messages of all failed executions at every point if and only if every accept of the job takes a copy whose list is the locked row's |
| LeaseResults.ErrorLogCanBeLost | jobs/workerpool.go:293-295 | a concrete run in which accepting a queued duplicate erases a recorded error while the counter stays right |
| WorkerPool.JobStore.InsertJob | jobs/store_gorm.go:36-38 | a new row with the drawn identifier and both timestamps, or a key error and no change |
| WorkerPool.JobStore.UpdateJob | jobs/store_gorm.go:40-42 | the whole row becomes the caller's copy, stamped now, or the write fails and the row stays |
| WorkerPool.JobStore.AcceptJob | jobs/store_gorm.go:55-76 | succeeds exactly when copy and locked row are acceptable and the write does not fail; then the row is the accepted copy with the row's counter plus one, otherwise the table is unchanged |
| WorkerPool.WorkerPool.TryEnqueue | jobs/workerpool.go:352-361 | the non-blocking send appends to the channel only below its capacity, and fails only when it is full or stopped |
| WorkerPool.WorkerPool.CreateJob | jobs/workerpool.go:154-173 | a fresh job in state INIT is inserted, or nothing changes |
| WorkerPool.WorkerPool.Schedule | jobs/workerpool.go:180-207 | the job is queued and the table untouched, or it is stored as deferred, if that write succeeds, because the channel is full or stopped; a halted system does neither, and an error of the halted query is returned |
| WorkerPool.WorkerPool.ScheduleJobStatusNotification | jobs/workerpool.go:442-468 | the table gains exactly one notification job carrying the report, queued or left to the poller; a failed creation changes nothing, and a failed write of the report leaves the bare job |
| WorkerPool.WorkerPool.RecordOutcome | jobs/workerpool.go:395-411 | state, error and error list after an execution, for success, an ordinary error with and without executions left, and a permanent failure; the job's next write is the protocol's finished row |
| WorkerPool.WorkerPool.Finish | jobs/workerpool.go:388-415 | the job carries what the executor left, in the state its error implies, and its row, and only that row, is written, or nothing if the write fails |
| WorkerPool.WorkerPool.Process | jobs/workerpool.go:364-426 | the whole effect of one worker's turn on table, channel and clock, whichever of its writes fail and whatever the halted query answers: unless it returns a critical error, the stored row carries the executor's result, transaction and error in the state they imply, and one execution more; and exactly when it notifies |
| WorkerPool.ProcessFollowsProtocol | jobs/workerpool.go:364-426 | what processing does to the table is what the protocol's events do in a row: a refusal, or accept, tick and the end or release of the execution; its write is in time exactly when the execution is shorter than the grace period |
| ChainListener.WindowSoundExactly | chain_events/listener.go:156-158 | a tick's window is non-empty, at most maxBlocks plus one long and ends at or below the head if and only if its 64-bit addition does not wrap |
| ChainListener.WrappedWindow | chain_events/listener.go:156-162 | a concrete window size for which the window ends before it starts and the stored height goes back |
| ChainListener.InitHeightOnce | chain_events/listener.go:205-224 | initialising again with the same configuration, at any later head, changes nothing |
| ChainListener.FirstWindowStart | chain_events/listener.go:205-224 | the first height scanned after initialisation: the one after the stored height, but not before a configured one of two or more, and for a fresh listener without one the one after the head |
| ChainListener.StartsAsConfiguredExactly | chain_events/listener.go:207-211 | a fresh listener starts at its configured height if and only if that is at least two |
| ChainListener.WindowsTile | chain_events/listener.go:150-166 | as long as no window wraps, over any mix of failed, rolled-back and committed ticks of any number of listeners, the committed windows list every height from the initial to the latest one, in order and once |
| ChainListener.TickCommitsOrLeaves | chain_events/store_gorm.go:21-44 | a tick either commits one window right after the latest height, full or reaching the head, or leaves the height as it was |
| ChainListener.DispatchedCoverage | chain_events/listener.go:80-107 | the dispatched windows together cover exactly the heights above the initial one up to the highest dispatched |
| ChainListener.CommitCatchesUp | chain_events/listener.go:156-163 | a tick without fault commits everything that was dispatched before it and rolled back |
| ChainListener.CatchUpExactly | chain_events/listener.go:156-163 | against a fixed head, n successful ticks reach it exactly when n is at least the distance divided by the window size, rounded up; from then on a tick changes nothing |
| ChainEvents.ScanMembers | chain_events/listener.go:88-100 | a scan contains exactly the events of the listened types emitted in its window |
| ChainEvents.ScanCounts | chain_events/listener.go:88-100 | a scan dispatches every event as often as it was emitted in the window, for each time its type is listened to |
| ChainEvents.RangeInOrder | chain_events/listener.go:89-99 | a query's events come in the order of their heights |
| ChainEvents.Listener.Run | chain_events/listener.go:80-107 | all queries precede all dispatches: either every event of the window is triggered in order, or a query failed and none is |
| ChainEvents.Listener.OnTick | chain_events/listener.go:150-166 | a tick's effect on the status row and on the triggered events is the step of the listener model, with exactly the fault met first |
| ChainEvents.Listener.InitHeight | chain_events/listener.go:205-224 | the initial height is stored unless the header query or the save fails, and then the row is untouched |
| Deposits.IdempotentExactly | tokens/service.go:334-411 | registering a deposit again changes nothing if and only if the transaction's effective type is the one the token implies; otherwise it adds the same transfer again |
| Deposits.OutsideNftStoredTwice | tokens/service.go:362-370 | a concrete NFT deposit from outside the wallet that is stored once per delivery |
| Deposits.OutsideFtStoredOnce | tokens/service.go:362-370 | an FT deposit from outside the wallet is stored once, with its amount, parties and transaction |
| Deposits.ParseExactly | tokens/service.go:344-348 | an NFT id is accepted if and only if it is the decimal notation of a 64-bit number, leading zeros allowed, and is read as that number |
| Deposits.RegisterRecords | tokens/service.go:396-408 | whatever a registration meets, it adds nothing or the transfer of its deposit: recipient, transaction and token, the first authorizer as sender, an FT's amount text or the number an NFT's id denotes |
| Deposits.OutcomeExactly | tokens/service.go:340-382 | exactly when a registration is rejected, lacks the chain's transaction, or fails at the unique index |
| Deposits.TransactionsAfter | tokens/service.go:355-370 | the deposit's transaction is known afterwards, stamped with the chain's proposer if nobody had typed it; all others stay |
| Deposits.TokensAfter | tokens/service.go:372-382 | the deposited token is enabled for the recipient; all other account tokens stay |
| Deposits.EffectiveTypeStable | tokens/service.go:362-370 | no registration changes the effective type of any transaction |
| Deposits.RegisterTyped | tokens/store_gorm.go:113-130 | a typed registration adds the deposit's row exactly when its recipient, transaction and token have none |
| Deposits.DeliveriesStoreOnce | tokens/service.go:384-408 | any order and repetition of typed deliveries adds exactly one row for each recipient, transaction and token that had none |
| Deposits.AddedRecords | tokens/service.go:396-408 | whatever fails on the way, every row that deliveries add is the transfer of one of them |
| Deposits.DeliveredIsRecorded | tokens/service.go:384-408 | typed deliveries without error leave a transfer of every deposit's token to its recipient in its transaction |
| Deposits.AddedAreDistinct | tokens/service.go:384-394 | no two of the transfers added are of one token to one recipient in one transaction |
| Deposits.RowsStored | tokens/service.go:396-408 | if delivered deposits with one key that had no row give one row, the rows added are exactly those of the delivered deposits without a row |
| Deposits.SameDepositsSameCounts | tokens/service.go:384-408 | two deliveries of the same deposits leave every recipient, transaction and token with equally many rows |
| Deposits.SameRowsExactly | tokens/service.go:384-408 | deposits that can be delivered without error add the same rows in every order and with any repetitions if and only if any two of them with one key that had no row give one row |
| Deposits.SuccessCarriesOver | tokens/service.go:372-382 | if deposits can be delivered without error in one order, so can any selection of them in any other |
| Deposits.DepositAfterWithdrawal | tokens/service.go:453-471 | the deposit event of a finished withdrawal finds the withdrawal's row |
| Deposits.DepositDuringWithdrawal | tokens/service.go:453-471 | an event handled before the withdrawal's last write leaves two rows |
| Deposits.SecondDepositOfTransactionSwallowed | tokens/store_gorm.go:122-128 | a deposit that differs from a registered one only in its amount is not recorded |
| TokenService.Service.InsertAccountToken | tokens/store_gorm.go:33-37 | first-or-create, failing exactly when the unique index holds another type |
| TokenService.Service.TokenDeposit | tokens/store_gorm.go:113-130 | finds a deposit exactly when a row of that recipient, transaction and token joins a transaction of the token's transfer type |
| TokenService.Service.RegisterDeposit | tokens/service.go:334-411 | the tables and the outcome on every error path; a registered deposit adds exactly its own transfer, with its amount or id, and nothing else adds one |
| TokenService.Service.CreateWithdrawal | tokens/service.go:415-474 | after success one more transfer with the requested parties, amount, id and token, and its transaction with the sender and the token's type; the transaction row alone after a failed send or a failed write of the transfer, nothing otherwise |
| ExactlyOnce.DispatchedIsOneScan | chain_events/listener.go:80-107 | all windows of a run emit what one scan up to the highest dispatched height emits |
| ExactlyOnce.SameDeposits | tokens/chain_events.go:23-60 | the handler turns two deliveries of the same events into the same registrations |
| ExactlyOnce.HandledTransactions | tokens/service.go:357-360 | the deposits handled of one transaction agree on what the chain has under its id |
| ExactlyOnce.HandledExactly | tokens/chain_events.go:23-60 | the deposits registered are exactly those the delivered events announce: a deposit event of a listened token to an account of the wallet, with the event's value and transaction |
| ExactlyOnce.ForeignIgnored | tokens/chain_events.go:48-52 | events to unknown accounts or of unknown tokens change no table |
| ExactlyOnce.AddedAreAnnounced | tokens/chain_events.go:54-59 | whatever is delivered and whatever fails, every transfer added belongs to an account of the wallet and records a deposit that was announced |
| ExactlyOnce.EnabledAreKnown | tokens/chain_events.go:48-52 | no token is enabled for any other account |
| ExactlyOnce.Handle | tokens/chain_events.go:23-60 | the handler's effect on the tables for one event; none for a foreign one |
| ExactlyOnce.ExactlyOnce | tokens/service.go:334-411 | after any run of ticks with rollbacks and redeliveries of typed deposits every recipient, transaction and token has as many rows as after one failure-free scan, which succeeds too; none got a second one |
| ExactlyOnce.ExactlyOnceRows | tokens/service.go:396-408 | every delivery of a run stores the very rows of the scan if and only if any two of the scan's deposits with one key that had no row give one row |
| ExactlyOnce.DepositsAreResolved | tokens/chain_events.go:23-54 | where tokens are found by the types of their deposit events, as `EventTypes.ListenedTypesResolve` says they are, the deposit events of each stored token to known accounts become registrations for that token |
| KeyLedger.CreatedLedger | accounts/service.go:358-446 | a new account's stored keys are its live keys on chain, its highest index stored |
| KeyLedger.CreatedKeys | accounts/service.go:358-446 | every key of a new account, on chain and stored, is a live copy of the generated one |
| KeyLedger.AddKeyEffect | accounts/service.go:532-560 | an addition puts the generated key at the end of the chain's list and stores it under its index; all else stays |
| KeyLedger.RevokeKeyEffect | accounts/service.go:598-628 | of two or more stored keys any one can be revoked; it is then revoked on chain and not stored, and every other key is as before |
| KeyLedger.RevokeKeyRefused | accounts/service.go:594-610 | the only stored key, or an index that is not stored, is never revoked |
| KeyLedger.SyncEffect | accounts/service.go:255-313 | a sync keeps all keys and adds live copies of the first stored one, as many to the chain as to the store |
| KeyLedger.LiveClonesAre | accounts/service.go:240-247 | the count a sync goes by is the number of live keys on chain with the source's public key |
| KeyLedger.NeverWithoutKey | accounts/service.go:594-596 | over any run with any faults an account with a key never runs out of stored keys, and after a careful run one of them is live on chain |
| KeyLedger.AddKeyKeepsLedger | accounts/service.go:485-561 | adding a key keeps every stored key live and matching, whatever fails |
| KeyLedger.RevokeKeyExactly | accounts/service.go:585-629 | revoking a key keeps the ledger if and only if it is refused or its result is not lost |
| KeyLedger.LostRevocation | accounts/service.go:612-626 | repeating a lost revocation ends where it would have ended, with the ledger repaired |
| KeyLedger.AuthorizerKeyIsLive | keys/basic/keys.go:186-190 | a stored index is in range on chain, not revoked, and has the stored public key |
| KeyLedger.RunKeepsLedger | accounts/service.go:585-629 | the ledger holds after every serial run of add, revoke and sync with faults, given no lost revocation and rightly numbered syncs |
| KeyLedger.SyncExactly | accounts/service.go:255-307 | a completed sync keeps the ledger if and only if the on-chain keys at the indices it hands out are live clones; storing the highest index is enough and stays so |
| KeyLedger.SyncReachesCount | accounts/service.go:255-319 | a sync leaves exactly the wanted number of live clones if there were fewer, and a second sync adds nothing |
| KeyLedger.SyncAfterRevokingLast | accounts/service.go:278-287 | add, revoke the last, sync: the ledger breaks, so the condition is needed |
| AccountService.SortedLastIsMax | accounts/service.go:264-267 | after sorting, the last stored key has the highest index |
| AccountService.SortSorts | accounts/service.go:264-267 | sorting keeps the keys and orders them by index |
| AccountService.Service.CreateAccount | accounts/service.go:358-446 | the loops build a chain of equal keys and rows numbered like them |
| AccountService.Service.AddKey | accounts/service.go:485-561 | account and result on success and on every fault |
| AccountService.Service.RevokeKey | accounts/service.go:585-629 | account and result; refused exactly for the only key or an unknown index, with nothing changed; otherwise that key alone is revoked on chain |
| AccountService.Service.SyncKeyCount | accounts/service.go:209-322 | the counting and cloning loops add exactly the missing clones after the highest stored index; results in every branch, among them the crash after a transaction reported as failed |
| AccountService.Service.MakeAuthorizer | keys/basic/keys.go:159-191 | under the ledger the unchecked index of a selected key yields that key, live; for the admin account the configured index is looked up, in range or not |
| Signing.SelectedKeySigns | accounts/service.go:209-322 | after any careful run of additions, revocations and synchronisations, whichever row of the account is selected, its index is in range on chain and the key there is live and the stored one |
| Signing.UserAuthorizer | keys/basic/keys.go:159-191 | selection and lookup together yield a live stored key, and fail exactly when none is stored |
| KeySelection.RepeatsFarApart | keys/store_gorm.go:29-44 | the same row is picked again only after as many calls as there are candidates |
| KeySelection.RoundRobin | keys/store_gorm.go:55-69 | any n consecutive calls on n candidates pick each exactly once |
| KeySelection.EvenUsage | keys/store_gorm.go:55-69 | after k rounds and part of the next every candidate was used k or k plus one times |
| KeySelection.UsageDiffersByOne | keys/store_gorm.go:29-44 | at no point do the usage counts of two candidates differ by more than one |
| KeySelection.ProposalCandidates | keys/store_gorm.go:56 | the candidates are the first rows by id up to the limit, all rows if it is not positive |
| KeySelection.SelectionContinues | keys/store_gorm.go:29-44 | a selection by the store extends the history the results above are about |
| KeySelection.KeyStore.Select | keys/store_gorm.go:29-44 | picks and stamps an oldest candidate; without candidates it fails and changes nothing |
| KeySelection.KeyStore.AccountKey | keys/store_gorm.go:23-47 | an oldest key of the address, stamped; fails exactly if the address has none |
| KeySelection.KeyStore.ProposalKeyIndex | keys/store_gorm.go:49-72 | the index of an oldest key among the first `limit`, stamped; fails exactly on an empty table |
| AdminKeys.LiveIndicesIncrease | keys/basic/init.go:25-35 | the indices inserted by a rebuild are strictly increasing, so no insertion meets its own duplicate |
| AdminKeys.RebuiltTableIsLive | keys/basic/keys.go:216-220 | every row of a rebuilt table indexes a live key |
| AdminKeys.AddsJustTheMissing | accounts/service_init.go:50-53 | a rebuild always ends with enough keys, and adds just the missing ones if and only if the live keys can be counted in 16 bits or their count modulo 2^16 is no less than what is wanted |
| AdminKeys.CountWraps | keys/basic/init.go:24-37 | with 65536 live keys and one wanted, a rebuild adds one |
| AdminKeys.RowsLiveExactly | keys/basic/keys.go:193-221 | however the chain's list has grown since the table was built, wholly or in part, the first n rows are live if and only if no key up to the last of them was revoked since |
| AdminKeys.CheckAcceptsStaleTable | keys/basic/keys.go:65-101 | after any live key of the table was revoked the check still passes if enough others are live, and the rows in use are live if and only if the dead one comes after them |
| AdminKeys.AdminAccount.CheckAdminProposalKeyCount | keys/basic/keys.go:65-101 | passes, or reports a mismatch, exactly by comparing both counts with the wanted one; call failures are neither |
| AdminKeys.AdminAccount.InitAdminProposalKeys | keys/basic/init.go:10-38 | the table becomes exactly the live indices and the result their number modulo 2^16; an error leaves the old table or a part of the new one |
| AdminKeys.AdminAccount.RebuildAdminProposalKeys | accounts/service_init.go:45-58 | after rebuild, addition and second rebuild the table is exactly the live indices and the chain gained what was missing |
| AdminKeys.AdminAccount.AddAdminProposalKeys | accounts/service_init.go:67-113 | `count` copies of the admin key are appended on chain; a reported failure added all of them or none |
| AdminKeys.AdminAccount.AdminProposalKey | keys/basic/keys.go:193-221 | the unchecked index of any row of any table built earlier is in range, and its key is live unless revoked since |
| AdminKeys.AdminAccount.InitAdminAccount | accounts/service_init.go:16-65 | it succeeds if no call fails and the admin key exists; success means that the account has its row and the check passes; it rebuilt exactly when the check would have failed, and then the table is exactly the live indices |
| TokenLedger.ExecuteConserves | flow/cadence/contracts/FUSD.cdc:89-164 | every operation that does not abort keeps supply equal to all balances plus what was destroyed without a burn |
| TokenLedger.AbortsExactly | flow/cadence/contracts/FlowToken.cdc:97-188 | deposits never overflow and burns never underflow; the only aborts are minting past the UFix64 maximum and withdrawing more than the balance |
| TokenLedger.MintGives | flow/cadence/contracts/FUSD.cdc:160-164 | a mint makes a vault of exactly the amount and raises the supply by it |
| TokenLedger.WithdrawGives | flow/cadence/contracts/FUSD.cdc:122-125 | a withdrawal lowers the vault by exactly the amount and makes a vault of exactly the amount |
| TokenLedger.DepositGives | flow/cadence/contracts/FlowToken.cdc:154-158 | a deposit raises the vault by what the other held, which is gone |
| TokenLedger.OthersGive | flow/cadence/contracts/FUSD.cdc:89-94 | empty vaults are empty, burned and destroyed ones gone, and only a burn lowers the supply |
| TokenLedger.OthersUnchanged | flow/cadence/contracts/FlowToken.cdc:97-188 | no operation makes, changes or removes a vault it does not name |
| TokenLedger.WithdrawAndReturn | flow/cadence/contracts/FUSD.cdc:122-134 | depositing a withdrawn vault back restores the ledger |
| TokenLedger.SupplyCoversVaults | flow/cadence/contracts/FUSD.cdc:89-164 | in every reachable state the vaults hold at most the supply, and exactly the supply if and only if no non-empty vault was destroyed outside a burn |
| BurnTree.BurnExactly | flow/cadence/contracts/Burner.cdc:23-49 | burning any nesting never aborts, removes every vault inside and lowers the supply by exactly the balances reachable through arrays, dictionaries and the callbacks of burnable resources |
| BurnTree.PlainBurnsAll | flow/cadence/contracts/Burner.cdc:33-45 | burning arrays and dictionaries of vaults, however nested, lowers the supply by all they hold and loses nothing |
| BurnTree.ContainerOfVaults | flow/cadence/contracts/Burner.cdc:33-45 | an array or a dictionary of vaults takes the sum of their balances off the supply |
| BurnTree.OtherBurnsNothing | flow/cadence/contracts/Burner.cdc:46-48 | burning any other resource leaves the supply as it is |
| BurnTree.BurnedIsReachable | flow/cadence/contracts/Burner.cdc:30-48 | what the recursion burns is what is reachable; vaults in other resources are not burned |
| BurnTree.RemovalsExactly | flow/cadence/contracts/FUSD.cdc:89-94 | any sequence of burns and destructions of different vaults succeeds and lowers the supply by the burned balances alone |
| BurnTree.BurnFirst | flow/cadence/contracts/Burner.cdc:34-37 | taking the first element out and burning it leaves a state in which the rest can be burned to the same end |
| BurnTree.BurnReleased | flow/cadence/contracts/Burner.cdc:30-32 | so does burning what another contract's callback releases, before the rest of the resource is destroyed |
| TokenContracts.Contract.constructor | flow/cadence/contracts/FUSD.cdc:203-216 | the whole initial supply of 1000.0 is in the stored vault |
| TokenContracts.Contract.MintTokens | flow/cadence/contracts/FUSD.cdc:160-164 | a new vault of exactly the amount, by which the supply rises, aborting exactly on overflow; no other vault changes |
| TokenContracts.Contract.Withdraw | flow/cadence/contracts/FUSD.cdc:122-125 | the vault falls by exactly the amount and a new vault holds exactly the amount, aborting exactly if the balance is less; no other vault changes |
| TokenContracts.Contract.Deposit | flow/cadence/contracts/FlowToken.cdc:154-158 | the vault rises by exactly what the deposited one held, which is gone, zeroed or not; never aborts; no other vault changes |
| TokenContracts.Contract.BurnVault | flow/cadence/contracts/FUSD.cdc:89-94 | the supply falls by the vault's balance and the vault is gone; never aborts |
| TokenContracts.Contract.Burn | flow/cadence/contracts/Burner.cdc:23-49 | the recursive method does exactly the ledger operations of the burn and touches no other balance |
| TokenContracts.Contract.BurnItems | flow/cadence/contracts/Burner.cdc:33-45 | the loop over a container does exactly the operations of its elements, in order |
| TestTokens.PerformBalances | flow/cadence/contracts/TestToken.cdc:60-140 | every operation keeps supply equal to the balances, and supply, burned and mintable amounts equal to what was granted |
| TestTokens.SupplyIsExact | flow/cadence/contracts/TestToken.cdc:41-166 | in every reachable state the vaults hold exactly the supply, never more than was granted to minters |
| TestTokens.TestToken.constructor | flow/cadence/contracts/TestToken.cdc:168-174 | an empty stored vault and no supply |
| TestTokens.TestToken.CreateNewMinter | flow/cadence/contracts/TestToken.cdc:102-105 | a new minter with its allowance |
| TestTokens.TestToken.Mint | flow/cadence/contracts/TestToken.cdc:131-140 | allowance and supply change by the amount; aborts exactly on a zero amount, beyond the allowance, or on overflow |
| TestTokens.TestToken.Deposit | flow/cadence/contracts/TestToken.cdc:73-79 | the balance moves; the destructor of the emptied vault takes nothing off the supply |
| TestTokens.TestToken.Destroy | flow/cadence/contracts/TestToken.cdc:81-83 | any destruction takes the balance off the supply and never underflows |
| Idempotency.StoresAnswerAlike | handlers/idempotency.go:92-162 | over any calls under a clock that does not go back, the lazily deleting map and the pruned, filtered table answer alike |
| Idempotency.ConflictExactly | handlers/idempotency.go:166-214 | from any table, pruned at any times in between, a serial request is rejected with a conflict if and only if it carries a key that was stored at the start or an earlier request was let through with, and that has not expired |
| Idempotency.ResponseExactly | handlers/idempotency.go:166-214 | which requests are looked at, which are bad, conflicting or failing, and that only a served keyed request is remembered, and for how long |
| Idempotency.LocalStore.Get | handlers/idempotency.go:136-155 | found exactly if unexpired; an expired key is dropped |
| Idempotency.TableStore.Prune | handlers/idempotency.go:122-125 | no lookup, now or later, is answered differently after pruning |
| Idempotency.TableStore.HandleRequest | handlers/idempotency.go:166-214 | store and response for each kind of request and fault |
| Replacer.OrderIrrelevant | templates/templates.go:43-53 | prefix-free arguments replace alike in every order, so the map's iteration order does not matter |
| Replacer.PaddingHarmless | templates/templates.go:46 | the empty arguments that precede the others change nothing |
| Replacer.MakeReplacer | templates/templates.go:43-53 | the loop over the map, in any order, builds arguments that replace exactly like any listing of its entries |
| Replacer.OccurrenceReplaced | templates/templates.go:50 | an occurrence that no other argument straddles is replaced as a whole wherever it stands |
| Replacer.NonFungibleImport | templates/init_vars.go:5-21 | `NonFungibleToken.cdc` becomes its own address, never one made through its suffix `FungibleToken.cdc` |
| TokenTemplates.KnownListed | templates/init_vars.go:5-21 | the built-in variables are prefix-free, and the replacer built from them is the one of the results below |
| TokenTemplates.LineByLine | templates/templates.go:91-99 | the four stages rewrite a template line by line |
| TokenTemplates.ImportLine | templates/templates.go:64-100 | what becomes of a line that ends in a quoted file, for any file, path, address and token |
| TokenTemplates.PlainLine | templates/templates.go:91-99 | a line without quotes, dots and placeholders stays as it is |
| TokenTemplates.PlaceholderCode | templates/templates.go:81-87 | a placeholder between characters that no stage replaces becomes the token's name, address, vault, receiver or balance |
| TokenTemplates.OwnImport | templates/templates.go:76-79 | an import of the token's own file, by any path, becomes an import from the token's address |
| TokenTemplates.StandardImportExactly | templates/templates.go:76-99 | an import of a standard file becomes an import from its known address if and only if the token's name is not a suffix of the file's (or is the file's, with that address) |
| TokenTemplates.TokenNamedToken | templates/templates.go:76-79 | what a token named `Token` makes of the standard imports |
| EventTypes.SplitsBack | templates/events.go:13-15 | an event type splits into the parts it was printed from if and only if none contains a dot |
| EventTypes.DepositEvents | templates/events.go:8-32 | the event names of the two token standards, after address and contract |
| EventTypes.LiteralLike | templates/store_gorm.go:69 | a pattern without interpreted characters matches only itself |
| EventTypes.PercentLike | templates/store_gorm.go:69 | a percent sign matches anything, and quoted it matches itself |
| EventTypes.UnderscoreLike | templates/store_gorm.go:69 | a pattern with underscores alone matches character by character, an underscore matching any |
| EventTypes.FoundByName | templates/store_gorm.go:62-74 | a stored token is found under its name in any case, in memory or in the database |
| EventTypes.DepositEventRoundTrip | templates/service.go:111-139 | the deposit events printed for a stored token are attributed to it, and those of a namesake at any other valid address are refused |
| EventTypes.AddedIsPrintable | templates/service.go:74-93 | for a token the service added, whose address it formatted, only the name decides whether its event type can be read back |
| EventTypes.ListenedTypesResolve | main.go:320-336 | every event type the listener asks for leads to one stored token, the one it was printed from, and every stored token has one |
| Addresses.FormatRoundTrip | flow_helpers/flow_helpers.go:106-108 | a formatted address parses back to itself |
| Addresses.ValidateExactly | flow_helpers/flow_helpers.go:110-119 | two valid addresses are formatted alike if and only if they are one |
| EventTypes.FoundExactly | templates/store_gorm.go:62-74 | a token is found under its own name in every store with unique names if and only if its name has no percent sign, underscore or quoting backslash |
| EventTypes.Shadowed | templates/store_gorm.go:69 | for any name with one, an older token the name matches is found instead |
| EventTypes.UnderscoreShadowed | templates/store_gorm.go:69 | in particular one that has an `x` for an underscore |

## Left out

- HTTP routing, JSON, logging, configuration parsing, the command line tools and the web example: plumbing.
- gRPC, key management services, encryption and signatures: external; a transaction has an effect or not, and its result may be reported or lost.
- The SQL engine and migrations: tables are maps and sequences with atomic writes. Sqlite, for which datastore/lib/lib.go opens no transactions, is excluded. Of database errors only the ones named by a fault or a unique index occur.
- The order and the limit of 1000 of the poller's query: whether an old job is ever reached is not stated, only that it is offered and acceptable.
- The poller's and workers' goroutines, blocking sends and the halted flag of the poller: the protocol's steps stand for them, in any order.
- `WorkerPool.WorkerPool.Process`: lets no other process write while its executor runs; interleavings are the protocol's subject.
- `LeaseResults.TerminalForever`: like its neighbours, holds under the overrun hypothesis only, which the code does not enforce.
- Job attributes, and what executors do apart from the result, transaction, notification flag and error they leave.
- Sleeps, back-off and rate limits: the clock moves at will.
- `ExactlyOnce.ExactlyOnce`: deposits are typed, which is the exact condition of `Deposits.IdempotentExactly`; handlers run one after another and without error; the code starts them concurrently and does not repeat failed ones. Tokens, accounts and listened types are fixed during a run.
- `ExactlyOnce.DepositsAreResolved`: says where the tokens of a handled event come from; `ExactlyOnce.ExactlyOnce` holds for any assignment of tokens to event types.
- An event without an amount and an id, or whose recipient is not the account the store knows by that text: `Payload` always has a value and addresses are compared as given.
- `AdminKeys.AdminAccount.AdminProposalKey`: the proposal key table is written by rebuilds alone, as in the code; rows edited by hand are not covered.
- Concurrent key changes of one account and concurrent requests with one idempotency key: the code does not serialise them, so runs are serial.
- Wrap-around of the 32-bit key index, and key material: a key is its public key and whether it is revoked.
- `WorkerPool.WorkerPool.RegisterExecutor`: keeps which job types have an executor; what it does is an argument of processing.
- `KeySelection.RoundRobin`: assumes a clock that each call finds later than all stamps; rows with equal stamps may be picked in either order.
- `TokenService.Service.CreateWithdrawal`: address and amount validation come before it and are not modelled.
- Token lists, withdrawal and deposit queries: reads without further structure.
- Events, metadata views, capabilities, minter proxies and paths of the contracts.
- `BurnTree.BurnExactly`: a dictionary is listed by its values in the order of its keys; hashing is not modelled. The callback of another contract's burnable resource burns what it releases, and does nothing else to vaults.
- `TokenContracts.Contract.DestroyVault` and `TokenContracts.Contract.DestroyAll` are ghost: destruction without a burn changes only what is accounted for.
- The Redis store of idempotency keys.
- `TokenTemplates.ImportLine`: covers files that end a line and follow a space outside other quotes, as import statements do; a file name that contains `TOKEN_`, the start of a placeholder, is covered only if it is the token's own.
- `TokenTemplates.OwnImport`: covers token names of letters, digits and underscores, as Cadence's identifiers are, although the service accepts any non-empty name, and addresses without a dot; so does `TokenTemplates.StandardImportExactly`.
- Parsing of the enabled tokens' configuration, and token insertion.
- `EventTypes.DepositEventRoundTrip`: which addresses are valid on the configured chain is a parameter. Their parsing follows the Flow SDK, which is not part of the repository; an address with the prefix `0x` twice, or a dot, is not covered.
- `EventTypes.FoundExactly`: a backslash at the end of a pattern stands for itself, as in MySQL; PostgreSQL rejects such a pattern. Case folding of letters outside ASCII is not modelled.
