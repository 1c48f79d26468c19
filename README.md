# Custodial wallet indexer: scan-and-reconcile ledger in Dafny

This project models the accounting core of a custodial wallet indexer that runs two watcher processes, one per chain.

- **EVM watcher** (`eth/src/index.ts`). It keeps a watermark, the last processed block. Each cycle it walks every block up to the tip and matches receipts against the users' lower-cased deposit addresses. It records confirmed Deposits and credits `ethBalance`, and it confirms or records Withdrawals. A periodic sweep settles pending Deposits and Withdrawals from chain lookups.
- **Solana watcher** (`sol/src/index.ts`). It does the same per slot. Routing uses the first two account keys and the balance change at index 1. Each transaction gets its own `try`/`catch`, and the sweep and the balance changes use `solBalance`.

The record schemas (Deposit, Withdrawal, User) and the configuration validator are modelled alongside.

Layout, one module per file:

- `common.dfy`: `Option`, `Result`, currencies, store errors, and the height range a cycle walks.
- `deposit_model.dfy`, `withdrawal_model.dfy`, `user_model.dfy`: the record datatypes and their Mongoose schema behaviour.
  - The status enums and their defaults.
  - `required` String paths, which refuse `""` as well as a missing value.
  - The unique index, which is on `txHash` alone.
  - The status transitions a record can go through.
- `config.dfy`: `getConfig` and `getSanitzedConfig`, with the environment as a map.
- `ledger.dfy`: the shared document store, in two forms.
  - The value `Store`, used by the specification functions.
  - The class `Database`, with one method per Mongo call. Inserts are validated, `save()` rewrites a loaded document, `$inc` changes a balance, and `find` returns a snapshot of the pending records in an order left open.
- `eth_indexer.dfy`, `sol_indexer.dfy`: one specification function per operation of each watcher.
  - The `EthWatcher` and `SolWatcher` classes hold the watermark and do the same work step by step on a `Database`, with loops.
  - Each method's `ensures` clause ties the new state of the store to the specification function.
- `eth_properties.dfy`, `sol_properties.dfy`: lemmas about those functions. The sweep lemmas of the two files have the same names and shapes on purpose: each file follows its own watcher's sweep functions, which differ in per-currency selection and in the balance they debit.
  - exact effect of each handler;
  - replay behaviour;
  - which paths touch which balance;
  - how poll cycles compose;
  - the store invariant (unique indexes and schemas) kept by every scan and sweep;
  - status transitions only move forward;
  - the exact total the sweep debits from each user.

Where the code and the design text of the system disagree, the model follows the code:

- **Unique index.** The design asks for uniqueness on (transaction id, currency). The schema's unique index is on `txHash` alone. A SOL record whose signature equals the id of an ETH record is therefore refused (`DepositModel.UniqueOnTxHashAlone`, `SolProperties.RefusedDepositSkipsWithdrawal`).
- **Replay.** The design says replaying a deposit credits it once. The ETH deposit path credits again on every replay, because the `$inc` sits outside the existence check (`EthProperties.ReplayCreditsTwice`). The SOL path is idempotent (`SolProperties.TransactionStepIdempotent`).
- **Watermark.** The design advances the watermark height by height. The code sets it to the tip once the whole range is done.
  - Heights or slots with no data are passed over all the same (`EthProperties.EmptyHeightsStillAdvance`, `SolProperties.EmptySlotsStillAdvance`).
  - On the EVM watcher, a refused `save()` rejects the promise of `pollNewBlocks`, which `main` starts without `await` or `catch` (eth/src/index.ts:32). The `while (true)` loop therefore ends at the first refused write, with the watermark where it was, and no later cycle runs. After a restart the watermark is read afresh from the tip (eth/src/index.ts:31), so the heights between the failure and the restart are skipped, not replayed. The model returns the aborted cycle with its store and its unchanged watermark (`EthIndexer.PollCycle`, `EthProperties.PollCyclesCompose`).
  - One way a save is refused: an unmatched outbound transfer with no recipient is recorded with `toAddress` `""`, which the `required` path rejects.
- **Duplicate keys.** The design treats a duplicate key as a no-op. On the EVM watcher a duplicate cannot arise: every insert follows a `findOne` on the same txHash, so the only refusal a scan meets is a `required` path left empty (`EthProperties.ScanRefusedOnlyByRequiredPath`), and that refusal ends the scanner as above. The Solana watcher catches every refusal per transaction and goes on.
- **Unmatched outbound transfers.** These are recorded as `pending` by the EVM watcher and as `failed` by the Solana watcher. Recording changes no balance on either side.
  - The EVM record is pending, so the next sweep picks it up; once its transaction has a block number the sweep confirms it and debits the sender's `ethBalance` by its amount (`EthProperties.UnexpectedWithdrawalDebitedBySweep`). The Solana record is already `failed` and is never debited.
  - On both watchers, a pending Withdrawal that the live scanner confirms is never debited. Neither scanner debits when it confirms (eth/src/index.ts:168-180, sol/src/index.ts:131-141), and each sweep selects only pending records (`EthProperties.WithdrawalStepEffect` with `EthProperties.SettleAllRecords`, `SolProperties.SolWithdrawalEffect` with `SolProperties.SettleAllRecords`).
- **EVM sweep.** It selects pending records of every currency and looks each one up on the EVM node. The code marks a Withdrawal `failed` when `getTransaction` resolves to nothing (eth/src/index.ts:215-221). In the model, a lookup of an id the node does not know returns nothing, so a pending Withdrawal of either currency that the node does not know is marked `failed` (`EthProperties.SweepFailsUnknownWithdrawals`). The model does not say whether an EVM node answers a Solana signature with null or with an error. A Withdrawal that has landed is confirmed and debited from `ethBalance`, even when it is a SOL Withdrawal.
- **SOL amount.** The amount is the raw change `post - pre` of the balance at index 1, which can be negative.

## Model

| member | source | states |
|---|---|---|
| DepositModel.New | eth/src/models/deposit.ts:18-35 | a Deposit built without a status gets the schema default `pending`; every other field is the one given |
| DepositModel.Insert | eth/src/models/deposit.ts:20-29 | an insert succeeds exactly when txHash and toAddress are non-empty and no Deposit has that txHash; a refusal is RequiredPathMissing or DuplicateKey accordingly; on success the new record is added and nothing else changes, and the map stays keyed and valid |
| DepositModel.Confirm | eth/src/index.ts:207-208 | confirming sets status `confirmed` and the stamp, sets the slot only when one is given, changes nothing else and keeps the record valid |
| DepositModel.UniqueOnTxHashAlone | eth/src/models/deposit.ts:21 | once a Deposit is stored, a Deposit of the other currency with the same txHash is refused, with DuplicateKey when it is otherwise valid |
| WithdrawalModel.New | eth/src/models/withdrawal.ts:19-37 | a Withdrawal built without a status gets the schema default `pending`; every other field is the one given |
| WithdrawalModel.Insert | eth/src/models/withdrawal.ts:21-31 | an insert succeeds exactly when txHash, fromAddress and toAddress are non-empty and the txHash is free; refusals carry the matching error; on success only the new record is added and the map stays keyed and valid |
| WithdrawalModel.Confirm | eth/src/index.ts:173-174 | confirming sets status `confirmed` and the stamp, sets the slot only when one is given, and changes nothing else |
| WithdrawalModel.Fail | eth/src/index.ts:218 | failing sets status `failed` and changes nothing else |
| WithdrawalModel.UniqueOnTxHashAlone | eth/src/models/withdrawal.ts:22 | a stored Withdrawal blocks a Withdrawal of the other currency with the same txHash |
| WithdrawalModel.TransitionTransitive | eth/src/index.ts:213-226 | the status moves the code makes (pending to confirmed or failed, never back) compose, so a record leaves `pending` at most once and a final status stays; `Ledger.EvolvesTransitive` rests on it |
| UserModel.Create | sol/src/models/user.ts:20-59 | creation succeeds exactly when username, email and password are given and non-empty; a supplied address, key or balance is stored as given, an omitted address or key defaults to "" and an omitted balance to 0 |
| UserModel.Insert | sol/src/models/user.ts:21-30 | inserting a user is refused with DuplicateKey exactly when its id, username or email is taken; otherwise it is appended and uniqueness is kept |
| UserModel.NewUserStartsAtZero | sol/src/models/user.ts:51-58 | a user created without balances has ethBalance 0 and solBalance 0 |
| Config.GetConfig | eth/src/utils/config.ts:24-33 | PORT is undefined exactly when unset or empty and otherwise its converted text; every other key is defined exactly when set and holds the raw string |
| Config.FirstUndefinedIsFirst | eth/src/utils/config.ts:36-40 | the loop finds no undefined entry exactly when all are defined, and otherwise returns the key of the first undefined one |
| Config.GetSanitizedConfig | eth/src/utils/config.ts:35-42 | fails exactly when some key is undefined, with "Missing key K in config.env" for the first such K in declaration order; on success the record read back is the input |
| Config.SanitizeRoundTrip | eth/src/utils/config.ts:41 | validating a fully defined record returns that record |
| Config.EmptyPortIsMissing | eth/src/utils/config.ts:26 | an empty PORT makes validation fail with the PORT message |
| Ledger.FindByEthAddress | eth/src/index.ts:122 | the lookup returns the first user whose ethDepositAddress equals the address exactly, or none when no user has it |
| Ledger.FindBySolAddress | sol/src/index.ts:72 | the lookup returns the first user whose solDepositAddress equals the address exactly, or none when no user has it |
| Ledger.IncEthBalance | eth/src/index.ts:139-142 | `$inc` on ethBalance adds delta to exactly the user with that id, leaves solBalance and every other field alone and keeps uniqueness |
| Ledger.IncSolBalance | sol/src/index.ts:113 | `$inc` on solBalance adds delta to exactly the user with that id, leaves ethBalance and every other field alone and keeps uniqueness |
| Ledger.UsersKeptFind | sol/src/index.ts:39-44 | the users read at the start of a block find the same owner for any address as the live collection, since only balances change |
| Ledger.UsersKeptUnique | sol/src/models/user.ts:21-30 | balance updates cannot break the unique indexes on users |
| Ledger.Database.InsertDeposit | eth/src/index.ts:127-136 | `save()` of a new Deposit stores it when the insert succeeds and otherwise returns the refusal and changes nothing |
| Ledger.Database.InsertWithdrawal | eth/src/index.ts:182-194 | `save()` of a new Withdrawal stores it when the insert succeeds and otherwise returns the refusal and changes nothing |
| Ledger.Database.SaveDeposit | eth/src/index.ts:207-209 | `save()` of a loaded Deposit replaces that record only |
| Ledger.Database.SaveWithdrawal | eth/src/index.ts:173-175 | `save()` of a loaded Withdrawal replaces that record only |
| Ledger.Database.IncEth | eth/src/index.ts:139-142 | the store after the update is the one IncEthBalance describes |
| Ledger.Database.IncSol | sol/src/index.ts:113 | the store after the update is the one IncSolBalance describes |
| Ledger.Database.FindPendingDeposits | eth/src/index.ts:203 | `find` returns every pending Deposit of the requested currency once, exactly as stored |
| Ledger.Database.FindPendingWithdrawals | eth/src/index.ts:213 | `find` returns every pending Withdrawal of the requested currency once, exactly as stored |
| Common.HeightsAscending | eth/src/index.ts:43-47 | the heights a cycle walks are last+1..tip, each once, in ascending order |
| Common.HeightsSplit | sol/src/index.ts:21-23 | walking lo..hi is walking lo..mid and then mid+1..hi |
| EthIndexer.AddressIndex | eth/src/index.ts:89-91 | the address index has one entry per user, in user order, each the lower-cased ethDepositAddress of the user at that position, and an address is in it exactly when it is some user's |
| EthIndexer.DepositCandidates | eth/src/index.ts:93-95 | a receipt is a deposit candidate exactly when its `to` is non-empty and in the index |
| EthIndexer.WithdrawalCandidates | eth/src/index.ts:99-101 | a receipt is a withdrawal candidate exactly when its `from` is non-empty and in the index |
| EthIndexer.PollCycle | eth/src/index.ts:42-51 | the watermark never decreases; with tip at or below it nothing happens; a finished cycle sets it to the tip; a refused write leaves it unchanged |
| EthIndexer.EthWatcher.constructor | eth/src/index.ts:31 | the watermark starts at the tip read at startup |
| EthIndexer.EthWatcher.PollNewBlocks | eth/src/index.ts:36-54 | the block loop leaves the store, the error and the watermark that PollCycle gives |
| EthIndexer.EthWatcher.ProcessBlockTransactions | eth/src/index.ts:79-104 | a height without a result changes nothing; otherwise every deposit candidate is handled, then every withdrawal candidate, against the address index read once |
| EthIndexer.EthWatcher.ProcessDeposits | eth/src/index.ts:106-146 | the deposit loop leaves the store that DepositsRun gives, stopping at the first refused write |
| EthIndexer.EthWatcher.ProcessWithdrawals | eth/src/index.ts:148-198 | the withdrawal loop leaves the store that WithdrawalsRun gives, stopping at the first refused write |
| EthIndexer.EthWatcher.CheckPendingActions | eth/src/index.ts:200-237 | the sweep reads every pending record of both currencies and leaves the store that Sweep gives for what it read |
| EthIndexer.EthWatcher.ConfirmPendingDeposits | eth/src/index.ts:203-211 | every pending Deposit whose transaction has a block is confirmed; Withdrawals are untouched |
| EthIndexer.EthWatcher.SettlePendingWithdrawals | eth/src/index.ts:213-236 | every pending Withdrawal is settled in turn as SettleAll gives |
| EthIndexer.EthWatcher.Settle | eth/src/index.ts:214-235 | an unknown transaction fails the record; one with a block confirms it and debits the owner's ethBalance by the recorded amount; otherwise nothing changes |
| EthProperties.HeightsRunAppend | eth/src/index.ts:43-49 | running two height ranges in a row is running their concatenation, and an abort in the first ends both |
| EthProperties.PollCyclesCompose | eth/src/index.ts:42-51 | polling to mid and then to the tip leaves the store one poll to the tip leaves, with the same watermark when both finish; an abort in the first cycle is where the single cycle stops |
| EthProperties.MissingHeightsChangeNothing | eth/src/index.ts:82 | heights whose receipts have no result leave the store unchanged |
| EthProperties.EmptyHeightsStillAdvance | eth/src/index.ts:50 | a range with no receipts changes nothing and still moves the watermark to the tip |
| EthProperties.CandidatesCons | eth/src/index.ts:93-101 | each filter keeps a leading receipt exactly when its `to` (deposits) or `from` (withdrawals) is non-empty and indexed, ahead of the filtered rest |
| EthProperties.CandidatesOfOne | eth/src/index.ts:93-101 | each filter applied to one receipt keeps it exactly when its address qualifies |
| EthProperties.DepositCandidatesAppend | eth/src/index.ts:93-95 | the deposit filter distributes over concatenation, so it keeps the receipts' order |
| EthProperties.WithdrawalCandidatesAppend | eth/src/index.ts:99-101 | the withdrawal filter distributes over concatenation, so it keeps the receipts' order |
| EthProperties.Recipient | eth/src/index.ts:118-124 | a transaction present with a recipient and a value is credited to the first user whose ethDepositAddress is its `to`, and to nobody when no user has it |
| EthProperties.DepositStepEffect | eth/src/index.ts:117-145 | without a recipient nothing changes; an empty txHash is refused; otherwise the recipient alone gains the value, solBalance stays, and a confirmed Deposit is added only when none has the txHash |
| EthProperties.NewDepositIsConfirmed | eth/src/index.ts:127-135 | the Deposit created is confirmed, stamped, ETH, for the recipient, with the value, the recipient address and the txHash |
| EthProperties.ReplayCreditsTwice | eth/src/index.ts:125-142 | processing the same deposit twice keeps one Deposit but adds the value to the recipient twice |
| EthProperties.DepositStepScanned | eth/src/index.ts:117-145 | a deposit step keeps the store valid, alters no stored Deposit, touches no Withdrawal and only adds to ethBalance |
| EthProperties.DepositsOnlyCredit | eth/src/index.ts:106-146 | the deposit loop keeps the store valid, alters no stored Deposit, touches no Withdrawal and only adds to ethBalance |
| EthProperties.Sender | eth/src/index.ts:160-166 | a transaction present with a sender and a value is attributed to the first user whose ethDepositAddress is its `from`, and to nobody when no user has it |
| EthProperties.WithdrawalStepEffect | eth/src/index.ts:159-197 | without a sender nothing changes; a pending record is confirmed, a settled one left alone, and without one a pending ETH Withdrawal is recorded or refused; users and Deposits never change |
| EthProperties.UnexpectedWithdrawalIsPending | eth/src/index.ts:182-190 | the Withdrawal created is pending, unstamped, ETH, for the sender, with the value and the `from` and `to` of the transaction |
| EthProperties.WithdrawalStepScanned | eth/src/index.ts:168-196 | a withdrawal step keeps the store valid and lets records only move forward |
| EthProperties.WithdrawalsKeepBalances | eth/src/index.ts:148-198 | the withdrawal loop keeps the store valid and changes no user and no Deposit |
| EthProperties.BlockRunScanned | eth/src/index.ts:79-104 | processing a height keeps the store valid, moves records only forward and only adds to ethBalance |
| EthProperties.HeightsRunScanned | eth/src/index.ts:43-49 | the same for any run of heights |
| EthProperties.DepositStepRefusal | eth/src/index.ts:125-136 | a deposit step that aborts was refused for a `required` path, never for a duplicate key |
| EthProperties.WithdrawalStepRefusal | eth/src/index.ts:168-194 | a withdrawal step that aborts was refused for a `required` path, never for a duplicate key |
| EthProperties.DepositsRunRefusal | eth/src/index.ts:106-146 | the same for the whole deposit loop |
| EthProperties.WithdrawalsRunRefusal | eth/src/index.ts:148-198 | the same for the whole withdrawal loop |
| EthProperties.HeightsRunRefusal | eth/src/index.ts:43-49 | the same for any run of heights |
| EthProperties.ScanRefusedOnlyByRequiredPath | eth/src/index.ts:36-54 | a scan cycle that aborts was stopped by a `required` path left empty, never by a duplicate key |
| EthProperties.ScanCycleOnlyCredits | eth/src/index.ts:36-54 | a scan cycle, finished or aborted, keeps the store valid, deletes nothing, moves statuses only forward and never lowers a balance |
| EthProperties.ConfirmAllRecords | eth/src/index.ts:203-211 | the deposit sweep turns each listed Deposit into its reconciled form and leaves every other record and every balance as it was |
| EthProperties.SettleAllRecords | eth/src/index.ts:213-236 | the withdrawal sweep turns each listed Withdrawal into its settled form (failed, confirmed or unchanged) and leaves every other record as it was |
| EthProperties.SettleAllDebits | eth/src/index.ts:223-231 | the withdrawal sweep takes from each user's ethBalance exactly the sum of the amounts of that user's listed withdrawals that landed, and changes nothing else about users |
| EthProperties.ConfirmAllEvolves | eth/src/index.ts:203-211 | the deposit sweep keeps the store valid and moves statuses only forward |
| EthProperties.SettleAllMovesForward | eth/src/index.ts:213-236 | the withdrawal sweep keeps every Withdrawal keyed and valid and moves statuses only forward |
| EthProperties.SettleAllEvolves | eth/src/index.ts:213-236 | the withdrawal sweep keeps the store valid and lets it evolve |
| EthProperties.SweepEvolves | eth/src/index.ts:200-237 | the whole sweep over what `find` listed keeps the store valid and lets it evolve |
| EthProperties.UnexpectedWithdrawalDebitedBySweep | eth/src/index.ts:182-231 | an unmatched outbound transfer is recorded as a pending Withdrawal that the sweep selects; once the transaction has landed, settling it confirms it and takes its value from the sender's ethBalance and from nobody else's |
| EthProperties.SweepFailsUnknownWithdrawals | eth/src/index.ts:213-221 | every pending Withdrawal, of either currency, whose txHash the node does not know ends the sweep as failed and otherwise unchanged |
| SolIndexer.KeyOrUnknown | sol/src/index.ts:60-62 | an address read from a key is never empty, and is the key itself when there is one |
| SolIndexer.PollCycle | sol/src/index.ts:20-25 | with tip at or below the watermark nothing happens; otherwise the watermark becomes the tip; it never decreases |
| SolIndexer.SolWatcher.constructor | sol/src/index.ts:205 | the watermark starts at the tip read at startup |
| SolIndexer.SolWatcher.PollNewSolanaSlots | sol/src/index.ts:17-28 | the slot loop leaves the store and watermark PollCycle gives |
| SolIndexer.SolWatcher.ProcessSolanaBlock | sol/src/index.ts:29-93 | a slot without a block changes nothing; otherwise every transaction is handled in order against the users read at the start |
| SolIndexer.SolWatcher.ProcessTransaction | sol/src/index.ts:46-69 | a transaction with fewer than two keys or a zero or missing balance at index 1 is skipped; otherwise it is routed with its first two keys and the balance change |
| SolIndexer.SolWatcher.RouteTransaction | sol/src/index.ts:71-91 | the deposit side runs, then the withdrawal side; an error ends the transaction and is caught |
| SolIndexer.SolWatcher.HandleSolDeposit | sol/src/index.ts:94-118 | the handler leaves the store and error SolDeposit gives |
| SolIndexer.SolWatcher.HandleSolWithdrawal | sol/src/index.ts:120-158 | the handler leaves the store and error SolWithdrawal gives |
| SolIndexer.SolWatcher.CheckPendingActions | sol/src/index.ts:159-200 | the sweep reads the pending SOL records and leaves the store Sweep gives for what it read |
| SolIndexer.SolWatcher.ConfirmPendingDeposits | sol/src/index.ts:162-176 | every pending SOL Deposit whose transaction has a slot is confirmed at that slot; Withdrawals are untouched |
| SolIndexer.SolWatcher.SettlePendingWithdrawals | sol/src/index.ts:178-199 | every pending SOL Withdrawal is settled in turn as SettleAll gives |
| SolIndexer.SolWatcher.Settle | sol/src/index.ts:183-198 | an unknown transaction fails the record; one with a slot confirms it at that slot and debits the owner's solBalance by the recorded amount; otherwise nothing changes |
| SolProperties.SlotsRunAppend | sol/src/index.ts:21-23 | running two slot ranges in a row is running their concatenation |
| SolProperties.PollCyclesCompose | sol/src/index.ts:20-25 | polling to mid and then to the tip equals one poll to the tip, store and watermark alike |
| SolProperties.MissingSlotsChangeNothing | sol/src/index.ts:37 | slots without a block leave the store unchanged |
| SolProperties.EmptySlotsStillAdvance | sol/src/index.ts:24 | a range without blocks changes nothing and still moves the watermark to the tip |
| SolProperties.SolDepositEffect | sol/src/index.ts:100-117 | a SOL Deposit with the txHash means nothing happens; a Deposit of the other currency makes the insert fail with DuplicateKey; otherwise the confirmed Deposit is added and only the owner's solBalance grows by the amount |
| SolProperties.NewDepositIsConfirmed | sol/src/index.ts:102-111 | the Deposit created is confirmed, stamped, SOL, at the slot, to the user's deposit address, with the amount |
| SolProperties.SolWithdrawalEffect | sol/src/index.ts:127-157 | a pending SOL Withdrawal is confirmed at the slot, a settled one left alone, one of the other currency makes the insert fail, and without one a failed record is added; users and Deposits never change |
| SolProperties.UnauthorizedWithdrawalIsFailed | sol/src/index.ts:143-152 | the Withdrawal created is failed, SOL, from the user's deposit address to the observed recipient, at the slot |
| SolProperties.DepositSideSettles | sol/src/index.ts:71-74 | after the deposit side succeeds the store is valid, has evolved and has nothing left to record for the transaction; a failure means it had something to record |
| SolProperties.WithdrawalSideSettles | sol/src/index.ts:75-88 | after the withdrawal side succeeds the store is valid, has evolved, its Deposits and users are unchanged and nothing is left to record |
| SolProperties.DepositSeenIsStable | sol/src/index.ts:100-101 | a deposit side with nothing left to record changes nothing |
| SolProperties.WithdrawalSeenIsStable | sol/src/index.ts:131-132 | a withdrawal side with nothing left to record changes nothing |
| SolProperties.RouteSlotted | sol/src/index.ts:71-88 | routing keeps the store valid, moves statuses only forward, never alters a stored Deposit and never touches ethBalance |
| SolProperties.TransactionStepSlotted | sol/src/index.ts:46-92 | the same for handling one transaction, skipped or not |
| SolProperties.RouteIdempotent | sol/src/index.ts:71-88 | routing the same transaction twice is routing it once |
| SolProperties.TransactionStepIdempotent | sol/src/index.ts:46-92 | handling the same transaction twice is handling it once: no second Deposit or credit, no second change to a Withdrawal |
| SolProperties.RefusedDepositSkipsWithdrawal | sol/src/index.ts:89-91 | when the deposit insert is refused because an ETH Deposit holds the id, the error is caught, the withdrawal side does not run and the store is as before |
| SolProperties.TransferBetweenUsersRecordsBoth | sol/src/index.ts:71-88 | a transfer between two deposit addresses with no records yields both the recipient's SOL Deposit and the sender's failed SOL Withdrawal |
| SolProperties.TransactionsRunSlotted | sol/src/index.ts:46-92 | handling all transactions of a block keeps the store valid, alters no stored Deposit and never touches ethBalance |
| SolProperties.SlotsRunSlotted | sol/src/index.ts:21-23 | the same for any run of slots |
| SolProperties.ScanCycleSlotted | sol/src/index.ts:17-28 | a scan cycle keeps the store valid, deletes nothing, moves statuses only forward, never alters a stored Deposit and never touches ethBalance |
| SolProperties.ConfirmAllRecords | sol/src/index.ts:166-176 | the deposit sweep turns each listed Deposit into its reconciled form stamped with the slot, and leaves every other record and every balance as it was |
| SolProperties.SettleAllRecords | sol/src/index.ts:182-199 | the withdrawal sweep turns each listed Withdrawal into its settled form and leaves every other record as it was |
| SolProperties.SettleAllDebits | sol/src/index.ts:189-197 | the withdrawal sweep takes from each user's solBalance exactly the sum of the amounts of that user's listed withdrawals that landed, and changes nothing else about users |
| SolProperties.ConfirmAllEvolves | sol/src/index.ts:162-176 | the deposit sweep keeps the store valid and moves statuses only forward |
| SolProperties.SettleAllMovesForward | sol/src/index.ts:178-199 | the withdrawal sweep keeps every Withdrawal keyed and valid and moves statuses only forward |
| SolProperties.SettleAllEvolves | sol/src/index.ts:178-199 | the withdrawal sweep keeps the store valid and lets it evolve |
| SolProperties.SweepEvolves | sol/src/index.ts:159-200 | the whole sweep keeps the store valid and lets it evolve |
| SolProperties.SweepLeavesEthRecords | sol/src/index.ts:162-181 | fed what its SOL-filtered `find` calls return, the sweep leaves every ETH record exactly as it was |

## Left out

- EthIndexer.EthWatcher.PollNewBlocks: the model lets the method be called again after it returns an error; in the source the rejected promise ends the `while (true)` loop of pollNewBlocks for good (eth/src/index.ts:32, 36-54), so no later cycle runs.
- RPC calls are not modelled as calls. This covers `eth_blockNumber`, `eth_getBlockReceipts`, `getTransaction`, `getSlot` and `getBlock`, which are network I/O. The chain is a read-only input: receipts or blocks per height, and transactions by hash. The tip is a parameter of each cycle.
- Mongoose persistence is a class over maps and a sequence. Its `find` order is left open. Only the unique indexes on `txHash`, `username`, `email` and `_id` are modelled, together with `required` and enum validation. `user` and `amount` are always present in the model's types, so their `required` checks have nothing to refuse.
- Floating-point amounts are replaced by integer base units. This covers `formatEther` with `parseFloat` on the EVM side and the division by 1e9 on the Solana side. Amounts are in wei and lamports. The division is a uniform scale, so no comparison in the core depends on it, but float rounding is not captured.
- Timers and concurrency are not modelled: the `while (true)` loops, the sleeps, the `setInterval` sweeps, and the overlap between scanner and sweep. One cycle and one sweep are modelled, each run alone.
- `Promise.all` fan-out is not modelled: the transactions of a height are fetched and then handled in their order.
- A rejected EVM RPC call (`getTransaction`, `eth_getBlockReceipts`, `eth_blockNumber`) is not modelled: every lookup answers with a value or null. In the source such a rejection escapes `checkPendingActions`, which has no `try`/`catch` and is started by `setInterval` (eth/src/index.ts:33, 200-237). That sweep then ends, and the pending records after it stay untouched until the next sweep. In the scanner the rejection ends `pollNewBlocks` like a refused write.
- `getBlock` and `User.find` failures in `processSolanaBlock` are not modelled. They sit outside the `try` block and are network or store errors.
- `main` startup (`mongoose.connect`) is not modelled; only the initial watermark is, as a constructor parameter.
- `console` logging is not modelled. This includes the unauthorized-withdrawal warning.
- `new Date()` stamps and `createdAt` are not modelled: `confirmedAt` is a flag that says whether it was set.
- Address case is only approximated. `toLowerCase` is ASCII lower-casing, and ethers' checksummed addresses are not modelled: the `to` and `from` of a fetched transaction are taken as given.
- The txId is the signature field of the model's Solana transaction, standing for `signatures[0]` of the message; `toBase58` on keys is the identity on the key text.
- `Number(process.env.PORT)` is not evaluated: the converted value carries its text.
- dotenv file loading is not modelled; the environment is a map parameter.
- The bcrypt pre-save hook and `comparePassword` in the user schema are not modelled; they are a foreign crypto library.
- `eth/global.d.ts` is not modelled; it declares types only.
- The projection of `User.find` to a few fields is not modelled, since the handlers read only those fields.
