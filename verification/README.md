# Wallet platform: money movement, verified

This project models how the wallet platform moves money and proves what that code guarantees under
every interleaving of requests, message deliveries, recovery sweeps and relay turns, with sessions
that abort, replies that get lost, handlers that crash and messages that are delivered again.

## How it is built

- `Types`, `Stores`: the documents; the store; `Apply`, the writes of one commit; and the decision
  functions of the source operations (`DepositEffect`, `TransferEffect`, `SettleEffect`, ...), which
  follow their branches. A recovery is decided await by await: `StageEffect` and `NextStage`.
- `Platform`: the state machine. A state holds the store, the requests in flight, the relay with its
  batch, the broker's log and un-acknowledged messages, the running message handlers and the running
  sweeps. `Step` performs one action, `Run` a sequence of them and `History` lists the store changes of
  a run. Reads that the source awaits separately are separate actions: the two reads of a message
  handler, the checks, the session and the saves of a recovery, the key lookup and the two concurrent
  wallet reads of a transfer, and the lookup after a duplicate key. Every choice of the environment is
  a parameter of an action, so a statement about all action sequences is one about all interleavings.
  A process crash is an execution in which the relay restarts, the handlers crash, and the requests and
  sweeps of the old process are never scheduled again. An `Execution` is a run with its intermediate
  states; `EveryRunIsExecution` and `ExecutionIsRun` convert between the two.
- `Databases`, `WalletService`, `Workers`: the services as objects that update a shared database in
  place, with the source's loops and order of writes. There is one method per stretch between two
  awaits, proved to do what the decision functions say, and its contract also states outright, on the
  database's own fields, what it leaves and answers; uninterrupted message handlers, recoveries, sweeps
  and relay turns are methods too, and they are proved to be runs of the state machine.
- `Lifecycles` states for every operation, run from its first await to its last on any state, each
  document it leaves and how it is answered; `RelayTurns` does so for relay turns, `Caching.GetDoes`
  for `getWallet`.
- The other modules hold the results: `Creation` (new wallets and transfers), `Evolution`, `Origins` and `Requests` (versions, and what an
  operation has read when), `Accounting` (balances, ledger, records, totals), `Records` and `Settlement`
  (credits per transfer), `Deliveries` (nothing is lost), `RelayLog`, `Idempotency`, `AtomicBank`
  (refinement), `AtomicDelivery` and `Draining` (uninterrupted handlers and recoveries), `MoneyOwed`,
  `Sweeps`, `Caching`, and `Anomalies` (concrete runs on which stronger promises fail).

Results hold from any store that satisfies the stated store predicates, which the empty store does.
`Boot(s, now)` is a freshly started process over a store `s` that may hold older transfers and events,
such as the debit-only PENDING transfers, the double-credited COMPLETED one and the PUBLISHED event
that the seed script creates.

## What is false, and exactly when it is true

- The sum of all balances is not conserved over whole runs. `transfer` credits the receiver itself and
  the consumer credits it again, while `ARCHITECTURE.md` lines 89-92 describe only the second credit.
  `Anomalies.SettlementMintsMoney` is a run that mints money. Exactly which credit keeps balances plus
  money owed is `MoneyOwed.CreditConservesIff`: the one whose transfer has a debit and no
  credit on record when it commits, which a recovery checks beforehand and the consumer never.
  `MoneyOwed.MoneyOwedLaw` adds this up over every run, `Records.ExactAccounting` says by how much
  the sum is off, and `Accounting.MoneyIsConservedIff` that any credit at all moves it.
- The consumer can credit a transfer twice. Its handler reads the transfer and then the receiver's
  wallet, and the version check only covers what happens after the second read:
  `Anomalies.DuplicateDeliverySettlesTwice`. A settlement is a second one exactly when an earlier one
  committed between these two reads (`Settlement.SecondSettlementIff`), so there is at most one exactly
  when none commits between another's two reads (`Settlement.SettledOnceIff`).
- Sweeps can credit a transfer twice. A recovery checks for a credit long before its session, which
  checks nothing: `Anomalies.OverlappingSweepsCreditTwice`. Its credit is a second one exactly when
  another credit committed between its check and its session (`Settlement.SecondRecoveryIff`,
  `Settlement.RecoveredOnceIff`), and a FAILED that a recovery saves is contradicted by a credit on
  record exactly when one committed since its check (`Settlement.FailedWithCreditIff`).
- A debit-only transfer can be credited by the consumer and by a sweep, because the recovery leaves the
  wallet's version alone: `Anomalies.InterruptedDeliveryCreditsTwice`. It is credited at most once
  exactly when no credit of it overtakes another, that is, commits between the reads on which the
  other relies and the point from which on a check protects it: `Settlement.CreditedOnceIff`. In
  particular it is when handlers and recoveries are not interrupted:
  `AtomicDelivery.DebitOnlySettlesOnce`.
- The dashboard's deposited minus withdrawn need not be the balance once a deposit or withdrawal aborted
  after writing its record: `Anomalies.AbortedDepositShows`. `Accounting.DashboardGap` gives the
  difference from any books in order, it is nothing exactly when the signed amounts of the records
  without an entry cancel out (`Accounting.DashboardMeans`), and a record lacks its entry exactly when
  such an abort left it (`Accounting.OrphansAreAborts`).
- A cached balance can be older than one expiry period, because a `getWallet` reads the balance before
  it fills the cache: `Anomalies.AnswerOlderThanExpiry`. An entry never answers, in whatever
  continuation, a balance that the wallet last held an expiry period ago or longer, exactly when the
  wallet held it in the tick of the fill (`Caching.EntryAlwaysRecentIff`), which `getWallet` could ensure
  by filling only with what the wallet still holds. Measured from the read, the age stays within
  the period exactly when the clock stood still between read and fill (`Caching.AgeSinceReadIff`); in
  any case it stays below the period plus the duration of the filling call
  (`Caching.CachedAnswersAreRecent`).
- FAILED does not mean that the receiver was not credited: `Anomalies.FailedAfterCredit`. When a handler or a recovery saves FAILED, a
  credit is on record exactly when one was there at its read or has committed since
  (`Settlement.HandlerFailedWithCreditIff`, `Settlement.FailedWithCreditIff`); a transfer made by the
  service that is FAILED has always been credited (`Settlement.FailedThoughCredited`).

## Model

The table lists the main results first (48 rows, to `Caching.EntryAlwaysRecentIff`), then the runs on which stronger
promises fail, then supporting facts, and last the services' own operations.

| member | source | states |
|---|---|---|
| Settlement.SecondSettlementIff | src/queue/transfer-events.consumer.ts:62-139 | a settlement is a second one iff an earlier one committed between its handler's transfer read and receiver read, and a second credit iff that or a recovery committed since the transfer read |
| Settlement.SecondRecoveryIff | src/workers/pending-transfer.worker.ts:60-151 | a recovery credit is a second credit iff another credit of the transfer committed between its check and its session |
| Settlement.EarlierOvertakes | src/workers/pending-transfer.worker.ts:57-163 | of two credits of one transfer, by the consumer or by sweeps, the earlier one has overtaken the later one between its reads and its protection |
| Settlement.SettledOnceIff | src/queue/transfer-events.consumer.ts:62-139 | the consumer credits a transfer at most once iff no settlement of it committed between another's two reads |
| Settlement.RecoveredOnceIff | src/workers/pending-transfer.worker.ts:31-163 | stale and overlapping sweeps credit a transfer at most once iff no recovery of it committed between another's check and session |
| Settlement.CreditedOnceIff | src/workers/pending-transfer.worker.ts:57-163 | an uncredited transfer ends with at most one credit iff no credit of it overtook another |
| Settlement.CreatedTransferCredits | src/wallets/wallets.service.ts:289-319 | a transfer made by the service has one debit and one credit plus one per settlement, none of them while PENDING, at most one iff none overtook another, and none from the sweep |
| Settlement.FailedWithCreditIff | src/workers/pending-transfer.worker.ts:74-163 | when a recovery saves FAILED a credit is on record iff one committed since its check; its reasons about the debit are true |
| Settlement.HandlerFailedWithCreditIff | src/queue/transfer-events.consumer.ts:80-144 | when a handler saves FAILED a credit is on record iff one was at its transfer read or one committed since |
| AtomicDelivery.DebitOnlySettlesOnce | src/workers/pending-transfer.worker.ts:57-163 | with uninterrupted handlers and recoveries debit-only transfers get at most one credit and are COMPLETED exactly when they have it |
| MoneyOwed.CreditConservesIff | src/workers/pending-transfer.worker.ts:104-146 | a credit keeps balances plus money owed iff its transfer was debited and not yet credited |
| MoneyOwed.MoneyOwedLaw | src/queue/transfer-events.consumer.ts:94-134 | over every run balances plus money owed move with deposits, withdrawals and the amounts credited on transfers without a debit or with a credit |
| MoneyOwed.MoneyOwedIsPaid | src/workers/pending-transfer.worker.ts:57-163 | with uninterrupted handlers and recoveries, over any store whose PENDING transfers are debited and uncredited, they move with deposits, withdrawals and second credits of new transfers only |
| Records.ExactAccounting | src/wallets/wallets.service.ts:289-319 | all balances minus amount times (TRANSFER_IN minus TRANSFER_OUT records) over all transfers moves with committed deposits and withdrawals only |
| Records.RunKeepsSound | src/workers/pending-transfer.worker.ts:61-72 | COMPLETED is always backed by a credit record and FAILED by a reason; new transfers have one debit and at least one credit |
| Records.SweepsMoveNothing | src/workers/pending-transfer.worker.ts:66-72 | from an empty platform a recovery changes a status at most, never a balance, record or entry |
| AtomicBank.InterleavingsAreAtomic | src/wallets/wallets.service.ts:97-134 | every interleaving leaves balances, versions and ledger as serving only the committed operations, one at a time in commit order; none is refused |
| Requests.MatchMeansUndisturbed | src/wallets/wallets.service.ts:157-162 | a version check fails exactly when another version-checked change to the wallet committed since the read; if it succeeds the balance has not fallen |
| Requests.TransferCommitsIff | src/wallets/wallets.service.ts:218-287 | a transfer commits iff its session goes through, each wallet was left undisturbed since its own read and the key is still free |
| Requests.SettlementCommitsIff | src/queue/transfer-events.consumer.ts:62-110 | a delivery settles iff its session goes through and the receiver was left undisturbed since its read, whatever happened to the transfer since the earlier read of it |
| Evolution.VersionArithmetic | src/workers/pending-transfer.worker.ts:106-117 | version growth equals new ledger entries minus recovery credits |
| Deliveries.NoTransferIsLost | src/workers/outbox-relay.worker.ts:29-39 | a PENDING transfer always has its event staged or a message un-acknowledged |
| Deliveries.SettlesOwnTransferAlways | src/queue/transfer-events.consumer.ts:80-134 | the consumer's credit, taken from the event, is the transfer's own amount to its own receiver |
| RelayLog.PublishLogShape | src/workers/outbox-relay.worker.ts:30-34 | over any outbox: since the start the broker's log is the events then staged or created later, in creation order with adjacent repeats, reaching k of them, and newly PUBLISHED are the first k or k-1 |
| RelayTurns.TurnSends | src/workers/outbox-relay.worker.ts:29-34 | a turn without failures sends exactly the oldest staged events, fifty at most, in creation order, and marks exactly those |
| RelayTurns.TurnsDrainOutbox | src/workers/outbox-relay.worker.ts:29-34 | after n such turns all but the oldest 50 n are still staged, so enough turns publish everything |
| Idempotency.RetriesAgree | src/wallets/wallets.service.ts:206-215 | requests with one key that return normally return the same transfer, the only one under that key |
| Idempotency.OneCommitPerKey | src/wallets/schemas/transfer.schema.ts:26-31 | per key at most one transfer commits over any run, exactly one if the key is newly stored |
| Lifecycles.KnownKeyIsAnswered | src/wallets/wallets.service.ts:201-215 | a request whose key is stored is answered at once with the transfer under it; any other between two wallets goes on to its reads |
| Lifecycles.CollisionIsAnswered | src/wallets/wallets.service.ts:234-360 | a request whose session collides with its key leaves nothing and is answered with the stored transfer |
| Lifecycles.TransferDoes | src/wallets/wallets.service.ts:201-366 | a transfer run from first to last await: refused, answered with the known one, or one PENDING document, both balances, two records, two entries and one event, answered with the new transfer |
| Creation.NewTransferIsPending | src/wallets/wallets.service.ts:276-287 | a committed request adds one PENDING document with its own wallets, amount and key and leaves the older ones |
| Creation.PendingUntilResolved | src/queue/transfer-events.consumer.ts:136-143 | a PENDING transfer stays so, its document untouched, exactly until a credit or a mark of it commits |
| Creation.CreatedIsAnnouncedOnce | src/wallets/wallets.service.ts:56-64 | every wallet and every transfer created since the start has exactly one event announcing it |
| Lifecycles.DeliveryDoes | src/queue/transfer-events.consumer.ts:45-150 | an uninterrupted delivery, document by document: skip and acknowledge, credit and acknowledge, or save FAILED with its reason and keep the message |
| Lifecycles.RecoveryDoes | src/workers/pending-transfer.worker.ts:57-164 | an uninterrupted recovery, document by document, for each of its outcomes |
| Accounting.RunReconciles | src/ledger/ledger.service.ts:78-89 | every balance equals the net of its ledger entries and is not negative, every balanceAfter equals the net of the entries up to it |
| Accounting.AggregateMatchesBalance | src/ledger/ledger.service.ts:91-111 | the grouping query gives the stored balance in whatever order entries are visited |
| Accounting.RunKeepsDoubleEntry | src/wallets/wallets.service.ts:289-336 | entries mirror distinct records; a record without an entry is a deposit or withdrawal |
| Accounting.DashboardGap | src/wallets/wallets.service.ts:119-133 | from any books in order, deposited minus withdrawn exceeds the balance by the records then without an entry and exactly those that aborted sessions left since, one per such abort |
| Accounting.DashboardMeans | src/wallets/wallets.service.ts:379-396 | from any books in order, deposited minus withdrawn is the balance iff the wallet's records without an entry cancel out |
| Accounting.OrphansAreAborts | src/wallets/wallets.service.ts:119-133 | a record made since the start lacks its entry iff an aborted deposit or withdrawal left it |
| Draining.DeliveriesAreBounded | src/queue/transfer-events.consumer.ts:45-60 | whatever requests, relay and sweeps do in between, deliveries are at most PENDING plus queued, plus transfers created and messages accepted since |
| Draining.QueueDrains | src/queue/transfer-events.consumer.ts:45-60 | deliveries chosen arbitrarily empty the queue within that bound |
| Sweeps.SweepResolvesList | src/workers/pending-transfer.worker.ts:48-54 | after the loop a transfer is PENDING iff it was and every recovery tried on it threw; others are untouched |
| Sweeps.InterleavedSweepClearsBacklog | src/workers/pending-transfer.worker.ts:31-55 | once a sweep without errors outside its sessions has worked off its list, everything stale at its query is COMPLETED or FAILED, whatever runs between its awaits |
| Caching.CachedAnswersAreRecent | src/wallets/wallets.service.ts:73-86 | a balance from the cache was held by the wallet when another call read it, less than one expiry period after that call filled the cache: its age is below the expiry period plus the time that call took in between |
| Caching.EntryAlwaysRecentIff | src/wallets/wallets.service.ts:74-84 | in every continuation a cache entry answers only what the wallet held within one expiry period, iff the wallet held it in the tick of the fill |
| Anomalies.SettlementMintsMoney | src/queue/transfer-events.consumer.ts:94-101 | a run in which delivering an event raises the sum of balances without a deposit |
| Anomalies.FailedAfterCredit | src/queue/transfer-events.consumer.ts:140-144 | a run that saves FAILED on a transfer whose receiver was credited at its creation |
| Anomalies.DuplicateDeliverySettlesTwice | src/queue/transfer-events.consumer.ts:63-80 | a run in which an event published twice is settled twice |
| Anomalies.OverlappingSweepsCreditTwice | src/workers/pending-transfer.worker.ts:61-117 | a run in which two sweeps credit one transfer |
| Anomalies.InterruptedDeliveryCreditsTwice | src/workers/pending-transfer.worker.ts:106-117 | a run in which a debit-only transfer is credited twice |
| Anomalies.AbortedDepositShows | src/wallets/wallets.service.ts:119-133 | a run after which the dashboard shows 5 deposited on a balance of 0 |
| Anomalies.AnswerOlderThanExpiry | src/wallets/wallets.service.ts:74-84 | a run in which the cache answers a balance last held longer ago than its expiry period |
| Stores.FindKey | src/wallets/wallets.service.ts:207-215 | the early lookup finds a transfer stored under the key, and finds none only if there is none |
| Stores.Staged | src/outbox/outbox.service.ts:20-26 | pending events, all of them, oldest first |
| Stores.Stale | src/workers/pending-transfer.worker.ts:35-40 | exactly the transfers that are PENDING and older than the cutoff |
| Evolution.RunIsLater | src/wallets/schemas/transfer.schema.ts:13-24 | nothing is removed, a transfer keeps wallets, amount and key and never returns to PENDING, records and entries are never rewritten, an unchanged version means a balance that has not fallen |
| Evolution.VersionCountsCommits | src/wallets/wallets.service.ts:99-110 | a wallet's version counts the committed version-checked changes to it |
| Evolution.OneCommitPerVersion | src/wallets/wallets.service.ts:157-174 | after a version-checked commit, every operation holding that or an older version is refused for ever |
| Creation.LastVerdictStands | src/queue/transfer-events.consumer.ts:136-143 | a transfer's status and reason are what the last credit or mark of it says |
| Lifecycles.OpenWalletDoes | src/wallets/wallets.service.ts:43-65 | a wallet with balance 0 and its staged event |
| Lifecycles.DepositDoes | src/wallets/wallets.service.ts:88-140 | a deposit run from first to last await: balance, version, record and entry, the record alone, or nothing |
| Lifecycles.WithdrawalDoes | src/wallets/wallets.service.ts:142-199 | a withdrawal likewise, and nothing without the funds |
| Origins.HandlerReads | src/queue/transfer-events.consumer.ts:62-86 | a handler about to run its session read its transfer PENDING at one moment and its receiver at a later one |
| Origins.RecoveryChecked | src/workers/pending-transfer.worker.ts:60-97 | a recovery past its credit check made that check before and found no credit |
| Origins.RecoveryFailedFor | src/workers/pending-transfer.worker.ts:74-163 | a recovery that saves FAILED found, at an await of its own, what the reason says |
| Origins.FailedAwaitDoes | src/workers/pending-transfer.worker.ts:49-53 | an await failing outside the session changes nothing and ends the recovery; a failing session leaves the store and leads to FAILED |
| Origins.HandlerFailedFor | src/queue/transfer-events.consumer.ts:80-144 | a handler that saves FAILED found no receiver or ran a session that left nothing, as its reason says |
| Requests.DepositCommitsIff | src/wallets/wallets.service.ts:88-140 | a deposit commits iff its session goes through and its wallet was left undisturbed since the read |
| Requests.WithdrawalCommitsIff | src/wallets/wallets.service.ts:142-199 | the same for a withdrawal: the second balance check never refuses one that passed the first |
| AtomicBank.CommitsAsIfUninterrupted | src/wallets/wallets.service.ts:88-366 | a deposit, withdrawal or transfer commits what the whole request would have done alone at that moment |
| AtomicDelivery.SettlesAsIfUninterruptedIff | src/queue/transfer-events.consumer.ts:63-139 | a committing settlement is what the whole delivery would do at that moment iff the transfer is still PENDING then |
| AtomicDelivery.RecoversAsIfUninterruptedIff | src/workers/pending-transfer.worker.ts:60-151 | a committing recovery credit is what the whole recovery would do at that moment iff a debit and still no credit is on record then |
| Accounting.ExchangeTotals | src/wallets/wallets.service.ts:237-269 | the commit of a transfer is zero-sum |
| Accounting.MoneyIsConservedIff | src/queue/transfer-events.consumer.ts:94-101 | the sum of balances follows deposits and withdrawals alone iff consumer and sweep have credited nothing |
| Accounting.TotalsOfOne | src/wallets/wallets.service.ts:389-393 | DEPOSIT and TRANSFER_IN records count as deposited, the others as withdrawn |
| Accounting.TotalsAddUp | src/wallets/wallets.service.ts:386-396 | the totals add up over records |
| Records.ExactAccountingFromEmpty | src/wallets/wallets.service.ts:289-319 | the same as an equation for runs from an empty platform |
| Records.WholeRecoveryTellsTheTruth | src/workers/pending-transfer.worker.ts:60-163 | after an uninterrupted recovery COMPLETED means exactly that a credit is on record, and exactly when the recovery wrote it |
| Settlement.FailedThoughCredited | src/wallets/wallets.service.ts:306-319 | a FAILED transfer made by the service has its credit on record |
| Settlement.RecordsOfRun | src/queue/transfer-events.consumer.ts:112-126 | credits on record grow by creation, settlements and recoveries, debits by creation only |
| Deliveries.RunKeepsFaithful | src/wallets/wallets.service.ts:338-348 | every staged, published or handled event names a stored transfer with its exact wallets and amount |
| Deliveries.RunKeepsTracked | src/queue/transfer-events.consumer.ts:45-60 | messages are acknowledged only for resolved transfers, events marked only after the broker has them |
| Deliveries.BootIsTracked | scripts/seed/seed.ts:318-333 | a process over a store whose PUBLISHED events are of resolved transfers, or of none, tracks every transfer |
| Deliveries.RestartIsTracked | src/workers/outbox-relay.worker.ts:23-40 | the next process over the same store and broker still tracks every transfer |
| RelayLog.RunKeepsOrder | src/workers/outbox-relay.worker.ts:23-40 | the relay stands at the first event not yet marked, and the log repeats or advances by one |
| Idempotency.DuplicateFindsTransfer | src/wallets/wallets.service.ts:350-358 | a request whose session hit the unique index always finds the stored transfer afterwards |
| Idempotency.RefusedTransferChangesNothing | src/wallets/wallets.service.ts:350-363 | a transfer session changes the store exactly when it replies with a new transfer |
| AtomicDelivery.HandleDoes | src/queue/transfer-events.consumer.ts:45-150 | an uninterrupted handler makes one change and loses its message exactly when it returns normally and is acknowledged |
| AtomicDelivery.StagesMakeRecovery | src/workers/pending-transfer.worker.ts:60-163 | await by await an uninterrupted recovery makes the one change of its branch |
| AtomicDelivery.RecoverDoes | src/workers/pending-transfer.worker.ts:48-54 | an uninterrupted recovery makes that change and the sweep goes on to its next transfer |
| AtomicDelivery.BlocksAreActions | src/queue/transfer-events.consumer.ts:45-60 | runs with uninterrupted handlers and recoveries are runs of the state machine |
| Draining.DeliveryLowers | src/queue/transfer-events.consumer.ts:45-87 | each delivery lowers (PENDING transfers, queue length) lexicographically |
| Draining.DrainingTerminates | src/queue/transfer-events.consumer.ts:45-60 | deliveries are at most as many as PENDING transfers plus queued messages |
| Draining.DrainedIsResolved | src/queue/transfer-events.consumer.ts:140-147 | once the queue is empty every transfer that had a message is COMPLETED or FAILED |
| Sweeps.SweptIsRun | src/workers/pending-transfer.worker.ts:48-54 | the loop is a run of the state machine |
| Sweeps.SweepWaits | src/workers/pending-transfer.worker.ts:32-40 | a transfer is swept only while PENDING and more than the timeout after it committed |
| Caching.FreshAnswersAreOwn | src/wallets/wallets.service.ts:84-85 | any other balance was held by the wallet at the own read |
| Caching.AgeSinceReadIff | src/wallets/wallets.service.ts:74-84 | measured from the read, the age stays within one expiry period iff the clock stood still between read and fill |
| Caching.GetDoes | src/wallets/wallets.service.ts:73-86 | an uninterrupted read: a live entry is answered and left, otherwise the wallet's own balance is answered and cached for one period |
| Databases.LedgerService.ComputeBalanceFromLedger | src/ledger/ledger.service.ts:82-89 | the reduction is the net of the entries, on a reconciled store the balance |
| Databases.LedgerService.AggregateNetByWallet | src/ledger/ledger.service.ts:91-111 | the grouping query agrees with the reduction |
| Databases.OutboxService.FindPending | src/outbox/outbox.service.ts:20-26 | the oldest staged events, as many as there are up to the limit |
| Databases.OutboxService.MarkPublished | src/outbox/outbox.service.ts:28-33 | marks one event and nothing else |
| Databases.Database.FindTransferByKey | src/wallets/wallets.service.ts:208-210 | the lookup by idempotency key |
| Databases.Database.FindRecord | src/workers/pending-transfer.worker.ts:61-64 | whether a record of the type names the transfer |
| WalletService.WalletsService.ReadForDeposit | src/wallets/wallets.service.ts:88-92 | refusal of an unknown wallet, or the snapshot |
| WalletService.WalletsService.ReadForWithdrawal | src/wallets/wallets.service.ts:142-150 | refusal of an unknown wallet or of too small a balance, or the snapshot |
| WalletService.WalletsService.InsertTransfer | src/wallets/wallets.service.ts:275-348 | transfer, two records, two entries and the event, in this order |
| WalletService.Newest | src/wallets/wallets.service.ts:374-377 | exactly the wallet's records, newest first |
| WalletService.EntriesOf | src/wallets/wallets.service.ts:387 | exactly the entries that name the record |
| Workers.TransferEventsConsumer.ReadTransfer | src/queue/transfer-events.consumer.ts:62-78 | skip, or go on to the receiver |
| Workers.TransferEventsConsumer.LocateReceiver | src/queue/transfer-events.consumer.ts:80-86 | fail, or the snapshot for the session |
| Workers.TransferEventsConsumer.SettleSession | src/queue/transfer-events.consumer.ts:88-144 | credit, record, entry and status together, or none of them |
| Workers.PendingTransferWorker.FindStale | src/workers/pending-transfer.worker.ts:35-40 | the sweep's list |
| Workers.PendingTransferWorker.CheckCredit | src/workers/pending-transfer.worker.ts:60-72 | whether a credit is on record decides between saving COMPLETED and going on |
| Workers.PendingTransferWorker.CheckReceiver | src/workers/pending-transfer.worker.ts:74-82 | a missing receiver leads to FAILED |
| Workers.PendingTransferWorker.CheckDebit | src/workers/pending-transfer.worker.ts:84-97 | a missing debit leads to FAILED, otherwise the session follows |
| Workers.PendingTransferWorker.Credit | src/workers/pending-transfer.worker.ts:99-163 | the session credits without any further check, or leaves everything and leads to FAILED |
| Workers.OutboxRelayWorker.RelayOne | src/workers/outbox-relay.worker.ts:32-33 | one event published, then marked, up to a failing await |
| WalletService.WalletsService.CreateWallet | src/wallets/wallets.service.ts:38-71 | on commit one wallet with balance 0 and its staged event, otherwise nothing |
| WalletService.WalletsService.ReadWallet | src/wallets/wallets.service.ts:74-77 | the wallet's balance, or not found |
| WalletService.WalletsService.ReadCache | src/wallets/wallets.service.ts:79-82 | the cached balance while it lives, else on to the fill |
| WalletService.WalletsService.FillCache | src/wallets/wallets.service.ts:84-85 | the balance read before is cached from now on and answered |
| WalletService.WalletsService.GetWallet | src/wallets/wallets.service.ts:73-86 | an uninterrupted call answers a live entry's balance and leaves it, otherwise the wallet's own balance, which it then caches for one expiry period |
| WalletService.WalletsService.DepositSession | src/wallets/wallets.service.ts:97-139 | the deposit's change, its refusal on a lost version, and the record that survives an abort |
| WalletService.WalletsService.WithdrawSession | src/wallets/wallets.service.ts:155-198 | the same for a withdrawal, with the funds guard |
| WalletService.WalletsService.ReadForTransfer | src/wallets/wallets.service.ts:201-215 | refusal of one wallet for both, the transfer stored under the key whenever there is one, or on to the wallet reads |
| WalletService.WalletsService.FetchSender | src/wallets/wallets.service.ts:218-219 | the sender's snapshot, and the decision when the receiver's is there already |
| WalletService.WalletsService.FetchReceiver | src/wallets/wallets.service.ts:218-220 | the same for the receiver |
| WalletService.WalletsService.CheckFunds | src/wallets/wallets.service.ts:223-229 | the refusals once both wallets have been read |
| WalletService.WalletsService.UpdateBoth | src/wallets/wallets.service.ts:237-273 | both version-checked updates or none |
| WalletService.WalletsService.TransferSession | src/wallets/wallets.service.ts:234-365 | on commit the PENDING document, both balances, two records, two entries and the event in the source's order, otherwise nothing; a taken key leads to its lookup |
| WalletService.WalletsService.LookUpDuplicate | src/wallets/wallets.service.ts:350-360 | the stored transfer after a duplicate key, or the error |
| WalletService.WalletsService.GetDashboard | src/wallets/wallets.service.ts:368-405 | totals over all records, the count, and the newest ten records, or all if fewer, each with its entries |
| WalletService.TotalsNewestFirst | src/wallets/wallets.service.ts:374-396 | the newest-first loop adds up to the wallet's totals |
| WalletService.OneEntryOrOrphan | src/wallets/wallets.service.ts:386-395 | each listed record has one mirroring entry or none |
| Workers.TransferEventsConsumer.CompleteTransfer | src/queue/transfer-events.consumer.ts:62-150 | an uninterrupted call: the handler's branches and whether it returns or throws |
| Workers.TransferEventsConsumer.HandleMessage | src/queue/transfer-events.consumer.ts:45-60 | an uninterrupted call is the atomic delivery of the state machine |
| Workers.PendingTransferWorker.RecoverTransfer | src/workers/pending-transfer.worker.ts:57-164 | an uninterrupted call makes the one change of its branch |
| Workers.PendingTransferWorker.Sweep | src/workers/pending-transfer.worker.ts:31-55 | an uninterrupted loop recovers its list in order and goes on after an error |
| Workers.OutboxRelayWorker.Relay | src/workers/outbox-relay.worker.ts:23-40 | a turn is a run of publish and mark actions up to the first error and nothing while running; without errors it sends the oldest fifty staged events or all if fewer |

## Left out

- MongoDB, Redis and RabbitMQ clients: a session is one atomic commit or abort, of which the service learns, a resolved publish means the message is queued, and a rejected one may or may not have been.
- Between a deposit's or withdrawal's record, which is written outside the session, and its commit the source shows the record without its entry; here both appear at the commit, or the record alone at the abort. Nothing but the dashboard reads such records, and no claim is made about the order of records against entries.
- The dashboard's reads of wallet, records and entries are taken from one state.
- The services' methods run from one interruption point to the next; what happens between such points is the subject of the state machine, not of the classes.
- The driver's repetition of a `withTransaction` callback and Mongoose's dirty-field tracking are library behaviour; a recovery works on the stored transfer, whose wallets and amount never change.
- Amounts are positive integers in minor units, as the request validation's positivity demands; floating point is not modelled.
- The `reference` and constant `status` of transaction records, wallet owner data and currency, which no money path consults.
- Malformed messages, several relay processes, timers and wall clocks: a logical clock stands for the cutoff and the cache expiry.
- Authentication, health, logging, transaction listing, the wallet events worker and the seed script's random data.
- Redis keys that hold text: the cached balance is kept as the number itself.
