# Verified model of the PayFi agent and its escrow contract

This project models, in Dafny, the stateful and algorithmic core of the repository and proves what that core is for.
`dafny verify dfyconfig.toml` checks everything. There is one module per component, and for the larger ones a second
one with the theorems over whole runs.

**The escrow contract** (`TokenLedger`, `Escrow`, `EscrowRuns`, `EscrowRotation`, `EscrowPartial`, `EscrowEntryPoints`,
`EscrowRefusals`).
Instance storage is one optional value per storage key, token balances are a ledger per token and holder, and a call
that panics leaves everything as it was. Runs are arbitrary sequences of calls by anyone, with any arguments, mixed with
outside transfers of the same tokens. Proved: conservation of the deposit and of every balance, the exact condition for
the four invariants declared in the source, authority over every payment, sealing, the arbiter time-lock, equality of
partial and full release, and for each entry point, in every reachable state, exactly when it is carried out, what it then
changes, and which error it reports otherwise.

**The rolling spending window** (`Spending`, `SpendingRuns`). The tracker with its table; runs contain payments, reads,
clears, restarts and database failures. Proved for every run: eviction is filtering, and every reply is that of an ideal
limiter over what the process can know, which a failed write, a failed read and a failed clear reduce or restore. As long
as the database worked up to the last restart (`SpendingRuns.Kept`; it may fail afterwards, and at any time in a run
without restarts) that is the whole history, so every reply is that of an ideal limiter that remembers everything, and
the payments accepted in a window stay within the limit. Without that condition neither need hold
(`SpendingRuns.LostWriteIsForgotten`); the bound then grows by what was forgotten, and `SpendingRuns.IdealExactly` says
which replies are still right. An inserted restart leaves the rest of the run possible and changes no reply, if all that
the process counts is written down at that moment. A single payment above the limit gets through, in every run, exactly
when its call takes longer than the window. Amounts in the bounds are not negative.

**The rate-limit backoff** (`Backoff`, `BackoffRuns`). Lock, generations, queue and timers. Proved: each callback is
settled at most once, in the order submitted, and is started if and only if no newer 429 came in between; traffic is held
back exactly until the deadline of the latest 429; what each timer does follows from the 429s since it was scheduled.

**The task scheduler** (`Scheduler`). Bounded concurrency, bounded FIFO, draining. Proved: the bounds, no overtaking, one
result per task, when tasks are rejected, and that the wait of a draining agent ends exactly when everything is settled.

**Stateful tools**: the storage watcher (`StorageWatcher`), the event listener (`EventListener`), the two nonce stores
(`NonceStore`) with the x402 rate gate (`X402`), and the account cache (`AccountCache`).

**Algorithms**: secret redaction (`Redaction`), swap slippage arithmetic (`Swap`), and decimal printing and summing of
simulated token transfers (`SacTransfers`).

Code that changes state in place is a class whose methods are proved to do exactly what a specification function says
about the old state; the theorems are lemmas about that function over every run, and what each function decides is
fixed by laws that do not name it.

Where the code and its own comments differ, the model follows the code:

- The invariants at `contracts/escrow/src/lib.rs:118-122` equate the contract's token balance with the stored amount.
  They hold if and only if the contract held no such tokens before, nobody sends it any from outside, and it never pays
  itself as its own recipient (`EscrowRuns.DeclaredInvariantsExactly`, with an input in
  `EscrowRuns.DeclaredInvariantsCanFail`). What always holds is that the contract holds at least the locked amount.
- `propose_new_arbiter` is documented to panic with `NotInitialized` before initialisation; the code panics with the
  uncoded message "state corrupted" (`EscrowEntryPoints.BeforeInitialisation`). `release`, `release_partial`, `refund` and
  `cancel` panic in the same way and document no error for this case.
- `accept_arbiter_rotation` also panics when the deadline overflows the clock, which its comment does not list. It does
  so exactly for proposals made in the last day of the clock (`EscrowRotation.AcceptExactly`, with an input in
  `EscrowRotation.DeadlineCanOverflow`).
- A newer 429 with a shorter `Retry-After` replaces a longer one. Before the deadline of an earlier 429 the lock is open
  if and only if the latest later one is already due (`BackoffRuns.OpensEarlyExactly`, with an input in
  `BackoffRuns.NewerLimitMayShortenTheWait`).
- A used nonce is forgotten after its lifetime, or earlier by the clean-up that follows a payment, so a challenge that
  stays valid for longer is paid again. `X402.ReplayRefusedExactly` says exactly when, for every lifetime, with inputs in
  `X402.LongChallengeIsPaidTwice` and `X402.SweptNonceIsPaidTwice`.
- `record` reads the clock again for its total. A single payment above the limit is accepted if and only if the two
  readings are more than a window apart (`SpendingRuns.OversizedAcceptedExactly`, with an input in
  `SpendingRuns.StretchedPaymentIsAccepted`).
- The window is mirrored so that a restart does not reset the total, but writing is best-effort: a payment whose write
  failed is forgotten at the next restart and can be spent again (`SpendingRuns.LostWriteIsForgotten`). A total is right
  if and only if nothing in the window is forgotten; a payment is answered right if and only if nothing is, or it fits
  both with and without what is (`SpendingRuns.IdealExactly`).
- The example in the comment of `sacRawToDecimal` holds for every non-negative amount; for negative amounts printing and
  reading back is exact only for whole units (`SacTransfers.RoundTripsExactly`). The spending check prints positive
  amounts only.

## Model

| member | source | states |
|---|---|---|
| Escrow.EscrowContract.Initialize | contracts/escrow/src/lib.rs:163-232 | the reply and the whole new world (storage, balances, events) are those of the specified step; every panic leaves the world unchanged |
| Escrow.EscrowContract.Release | contracts/escrow/src/lib.rs:253-298 | the same for the full release |
| Escrow.EscrowContract.ReleasePartial | contracts/escrow/src/lib.rs:455-516 | the same for a partial release |
| Escrow.EscrowContract.Refund | contracts/escrow/src/lib.rs:320-367 | the same for the refund |
| Escrow.EscrowContract.Cancel | contracts/escrow/src/lib.rs:539-587 | the same for the cooperative cancel |
| Escrow.EscrowContract.ProposeNewArbiter | contracts/escrow/src/lib.rs:608-631 | the same for an arbiter proposal |
| Escrow.EscrowContract.AcceptArbiterRotation | contracts/escrow/src/lib.rs:648-689 | the same for accepting a rotation |
| Escrow.EscrowContract.GetState | contracts/escrow/src/lib.rs:381-427 | NotInitialized before initialisation; otherwise, on whole storage, a snapshot that equals every stored field |
| EscrowEntryPoints.InitializeExactly | contracts/escrow/src/lib.rs:149-201 | in every reachable state: carried out exactly under the declared conditions plus authorisation and funds; then exactly the amount moves from the depositor to the contract, no other balance changes, and the storage is fully determined |
| EscrowEntryPoints.ReleaseExactly | contracts/escrow/src/lib.rs:246-298 | in every reachable state: carried out exactly when the escrow is initialised, the stored arbiter is named and authorises before sealing and the payee has room; then exactly the stored amount goes to the stored recipient, only the seal changes, and one event is published |
| EscrowEntryPoints.ReleasePartialExactly | contracts/escrow/src/lib.rs:447-516 | the same with a positive part of at most the stored amount; the amount falls by the part and the escrow is sealed exactly when nothing remains |
| EscrowEntryPoints.RefundExactly | contracts/escrow/src/lib.rs:313-367 | in every reachable state: carried out exactly when the stored depositor is named and authorises at or after expiry before sealing and has room; then exactly the stored amount goes back and only the seal changes |
| EscrowEntryPoints.CancelExactly | contracts/escrow/src/lib.rs:532-587 | in every reachable state: carried out exactly when both stored parties are named and authorise before sealing and the depositor has room, expired or not; then exactly the stored amount goes back and only the seal changes |
| EscrowEntryPoints.ProposeExactly | contracts/escrow/src/lib.rs:608-631 | in every reachable state: carried out exactly when the stored depositor is named and authorises, sealed or not; then exactly the two pending keys change and one event is published |
| EscrowEntryPoints.BeforeInitialisation | contracts/escrow/src/lib.rs:540-549 | in every reachable state before initialisation every call but `initialize` fails: accepting for want of a proposal, the five others with the uncoded panic |
| EscrowRefusals.RefusedCallsChangeNothing | contracts/escrow/src/lib.rs:163-689 | a caller is told of an error exactly when the call is refused, and a refused call leaves the whole world as it was |
| EscrowRefusals.InitializeRefusals | contracts/escrow/src/lib.rs:173-208 | each error of `initialize` if and only if its own condition holds and none checked before it does |
| EscrowRefusals.ReleaseRefusals | contracts/escrow/src/lib.rs:255-292 | the same for `release`, in every reachable state |
| EscrowRefusals.ReleasePartialRefusals | contracts/escrow/src/lib.rs:457-501 | the same for `release_partial` |
| EscrowRefusals.RefundRefusals | contracts/escrow/src/lib.rs:322-363 | the same for `refund`: before expiry an unsealed escrow answers NotExpired, a sealed one AlreadyReleased |
| EscrowRefusals.CancelRefusals | contracts/escrow/src/lib.rs:540-581 | the same for `cancel` |
| EscrowRefusals.ProposeRefusals | contracts/escrow/src/lib.rs:609-617 | the same for `propose_new_arbiter` |
| EscrowEntryPoints.RefundIsAlwaysAvailable | contracts/escrow/src/lib.rs:320-367 | with an initial supply within i128, in every reachable unsealed state at or after expiry the depositor's refund succeeds |
| EscrowRuns.RunSound | contracts/escrow/src/lib.rs:118-122 | in every reachable state the storage is whole, the amount is not negative and is zero only when sealed, balances are in range, and every published deposit and payment is positive and names the stored party |
| EscrowRuns.EveryBalanceIsAccountedFor | contracts/escrow/src/lib.rs:204-231 | after any run every balance of every holder in every token is its initial value plus outside traffic plus what the published events report |
| EscrowRuns.DepositIsConserved | contracts/escrow/src/lib.rs:253-587 | after any run the deposit equals what was paid to the recipient plus what was paid to the depositor plus what is locked, and the first event is the only deposit |
| EscrowRuns.ContractHoldsTheLockedAmount | contracts/escrow/src/lib.rs:121-122 | the contract's balance is the locked amount plus its earlier balance, gifts and payments to itself, so never less than the locked amount |
| EscrowRuns.DeclaredInvariantsExactly | contracts/escrow/src/lib.rs:118-122 | in every reachable state the four declared invariants hold if and only if there was no earlier balance, no gift and no payment to itself |
| EscrowRuns.DeclaredInvariantsCanFail | contracts/escrow/src/lib.rs:121-122 | a run of two calls after which the declared balance invariant is false |
| EscrowRuns.SupplyIsConserved | contracts/escrow/src/lib.rs:204-208 | no call changes the total of any token in a group that holds the parties |
| EscrowRuns.SupplyStaysConstant | contracts/escrow/src/lib.rs:204-208 | nor does any run among such a group |
| EscrowRuns.MoneyLeavesOnlyWithAuthority | contracts/escrow/src/lib.rs:253-587 | in every run the contract's balance falls only before sealing, by at most the stored amount, and all of it goes to the recipient with the then stored arbiter's authority, or to the depositor with the depositor's authority and expiry or the then stored arbiter's |
| EscrowRuns.PaymentsAreAuthorised | contracts/escrow/src/lib.rs:253-587 | one carried call publishes a payment only if it is a release with the stored arbiter's authority, or a refund or cancel with the depositor's authority and the expiry or the stored arbiter's, and the event names the stored payee |
| EscrowRuns.EveryPaymentIsAuthorised | contracts/escrow/src/lib.rs:253-587 | in every run every event on record, payments of the contract to itself included, was published by a carried call with the authority of the parties stored at that time |
| EscrowRuns.SealedForever | contracts/escrow/src/lib.rs:693-702 | once sealed, always sealed with the same amount, nothing more is paid, and no later call of the contract touches the ledger |
| EscrowRotation.PendingIsLatestProposal | contracts/escrow/src/lib.rs:608-631 | in every reachable state a pending arbiter and its time are those of the latest carried-out proposal, made with the depositor's authority and not yet used |
| EscrowRotation.ArbiterChangesAreTimeLocked | contracts/escrow/src/lib.rs:648-689 | every change of the arbiter is an acceptance of the latest proposal at least 86,400 seconds after it |
| EscrowRotation.RotationsAreADayApart | contracts/escrow/src/lib.rs:51 | accepted rotations times the delay never exceed the age of the escrow |
| EscrowRotation.AcceptExactly | contracts/escrow/src/lib.rs:648-689 | a pending proposal can be accepted exactly from its deadline on, is refused as locked exactly before it, and panics exactly when the deadline overflows the clock; an acceptance stores the proposed arbiter, uses the proposal up and changes nothing else |
| EscrowRotation.DeadlineCanOverflow | contracts/escrow/src/lib.rs:663-665 | a run whose pending proposal no call can ever accept |
| EscrowPartial.PartsAddUp | contracts/escrow/src/lib.rs:455-516 | parts whose sum fits the stored amount and can be transferred at once are all carried out, amount to one transfer of their sum, and seal exactly when nothing remains |
| EscrowPartial.PartsEqualOneRelease | contracts/escrow/src/lib.rs:429-516 | parts that sum to the stored amount leave the same ledger as one release, report the same total and seal the escrow |
| TokenLedger.TransferTwice | contracts/escrow/src/lib.rs:497-501 | two transfers along one route are one transfer of the sum |
| TokenLedger.TransferKeepsTotal | contracts/escrow/src/lib.rs:204-208 | a transfer inside a group keeps the group's total |
| Spending.SpendingTable.Load | backend/persistence.ts:137-146 | the answer is the multiset of rows at or after the given time, in time order |
| Spending.SpendingTracker.constructor | backend/spending_tracker.ts:28-56 | the new tracker is the specified restart on an answer the table can give; with a failing database it is empty |
| Spending.SpendingTracker.PruneOld | backend/spending_tracker.ts:126-145 | memory loses exactly the expired prefix; the table is pruned exactly when something was evicted and the database works |
| Spending.SpendingTracker.Record | backend/spending_tracker.ts:62-83 | records and table are those of the specified step, and the payment is refused exactly when the total after recording passes the limit |
| Spending.SpendingTracker.ReadTotal | backend/spending_tracker.ts:86-90 | the sum of the window after pruning |
| Spending.SpendingTracker.Clear | backend/spending_tracker.ts:147-154 | memory is emptied, and the table too when the database works |
| SpendingRuns.EvictionIsFiltering | backend/spending_tracker.ts:126-137 | on records in time order, prefix eviction is filtering by time |
| SpendingRuns.WindowIsRecentHistory | backend/spending_tracker.ts:36-145 | after every call of every run, memory and table hold the same multiset of records in the window as the payments the process counts and those written down; memory equals the full history if the database worked up to the last restart, the table as long as it worked |
| SpendingRuns.RepliesAreIdeal | backend/spending_tracker.ts:62-90 | if the database worked up to the last restart, every reply is that of a limiter that remembers the whole history and never restarts |
| SpendingRuns.RepliesFollowMemory | backend/spending_tracker.ts:36-90 | in every run, whatever fails, every reply is that of an ideal limiter over the payments recorded by this process and, after a restart, those written down before |
| SpendingRuns.AcceptedExactly | backend/spending_tracker.ts:62-90 | in every run a payment is accepted if and only if the window with it sums to at most the limit, a refusal and a read tell that sum, and what is no number is ignored |
| SpendingRuns.MirrorIsExact | backend/spending_tracker.ts:117-145 | while the database works and nothing restarts, the table equals memory record by record, expired rows being deleted too |
| SpendingRuns.IdealExactly | backend/spending_tracker.ts:36-124 | in every run, whatever fails, a total equals the one over the full history if and only if nothing in the window is forgotten, and a payment is answered as over the full history if and only if nothing is or it fits both with and without what is |
| SpendingRuns.LostWriteIsForgotten | backend/spending_tracker.ts:117-124 | an input: a failed write, a restart and the same payment again overspend the limit within one window |
| SpendingRuns.RestartIsInvisible | backend/spending_tracker.ts:36-56 | inserting a restart anywhere in any run at which everything counted is written down leaves every later restart's answer possible and changes no reply, whatever fails later |
| SpendingRuns.UpIsWritten | backend/spending_tracker.ts:117-124 | everything counted is written down as long as the database works |
| SpendingRuns.SpendingBound | backend/spending_tracker.ts:62-90 | payments accepted since the last `clear` in any interval of one window length sum to at most the limit if the database worked up to the last restart, although refused amounts stay recorded; whatever fails, to at most the limit plus the most that was forgotten when one of them was accepted |
| SpendingRuns.SpendingBoundOverDuration | backend/spending_tracker.ts:62-90 | over a duration T, under the same conditions, they sum to at most (floor(T / window) + 1) times that bound plus what was accepted by calls during which the clock moved, and to at most the former when it never does |
| SpendingRuns.OversizedAcceptedExactly | backend/spending_tracker.ts:65-80 | in every run, whatever fails, a single payment above the limit is accepted if and only if its two clock readings are more than a window apart |
| SpendingRuns.StretchedPaymentIsAccepted | backend/spending_tracker.ts:65-80 | an input: a run of one call that accepts a payment above the limit |
| Backoff.Network.Throttled | backend/network.ts:37-44 | the answer and the whole new state of the check, with the lazy clear |
| Backoff.Network.HandleRateLimitResponse | backend/network.ts:52-77 | the whole new state after a 429: lock, deadline, next generation, one more timer |
| Backoff.Network.WithBackoffGuard | backend/network.ts:83-102 | the callback starts exactly when not throttled, and otherwise joins the queue with the current generation |
| Backoff.Network.TimerFires | backend/network.ts:74-76 | the timer is used up and clears the lock only if its generation is the current one |
| Backoff.Network.Clear | backend/network.ts:121-142 | the loop settles every waiter in order, started if and only if its generation is the current one |
| BackoffRuns.SettledInOrderExactlyOnce | backend/network.ts:83-142 | in every reachable state the settled callbacks followed by the waiting ones are exactly the submitted ones in order, and a waiting callback means an active lock |
| BackoffRuns.QueueTellsGenerations | backend/network.ts:88-101 | the generation counts the 429s; the queue is sorted by generation and each waiter carries that of the moment it was queued |
| BackoffRuns.StartedIffNotSuperseded | backend/network.ts:92-101 | a callback is started if and only if no 429 came between its submission and its settlement |
| BackoffRuns.LockFollowsLatestDeadline | backend/network.ts:61-77 | an active lock ends at the deadline of the latest 429 and has a pending timer of the current generation due then; an open lock means that deadline has passed |
| BackoffRuns.WaitsAsAsked | backend/network.ts:52-67 | a 429 locks at once until now plus its seconds if they are positive, and until now plus 30 seconds if it names none or no positive number |
| BackoffRuns.StatusFollowsLatest | backend/network.ts:61-64 | the reported wait and deadline are those of the latest 429 while locked and zero otherwise |
| BackoffRuns.ThrottledExactly | backend/network.ts:37-44 | in every reachable state and at every moment from then on, the check throttles if and only if the deadline of the latest 429 lies ahead |
| BackoffRuns.OpensEarlyExactly | backend/network.ts:61-65 | before the deadline of an earlier 429, the lock is open if and only if the latest later 429 is already due |
| BackoffRuns.NothingStartsWhileLocked | backend/network.ts:37-44 | no callback is started or rejected before the deadline of the latest 429 |
| BackoffRuns.StaleTimersDoNothing | backend/network.ts:121-125 | a timer of an older generation changes nothing but leaving the list of pending timers |
| BackoffRuns.TimerActsExactly | backend/network.ts:69-77 | every timer that fires was scheduled by some 429; if a newer one was reported since, only the timer goes, and otherwise the lock opens and everyone who waits is settled |
| BackoffRuns.TimersAddUp | backend/network.ts:74-76 | the pending timers are one for each 429 less those that fired |
| BackoffRuns.TimerLiftsTheLock | backend/network.ts:69-77 | when a timer fires, either a newer 429 came after the one that scheduled it, or the lock is open and every submitted callback is settled |
| BackoffRuns.NewerLimitMayShortenTheWait | backend/network.ts:61-65 | an input for the early opening: a run in which the lock opens before the deadline of an earlier 429 |
| Scheduler.PayFiAgent.Run | backend/agent.ts:503-554 | start, queue or reject as specified, with the whole new state |
| Scheduler.PayFiAgent.ExecuteTask | backend/agent.ts:573-578 | one more slot is taken by this task |
| Scheduler.PayFiAgent.DispatchQueued | backend/agent.ts:560-570 | the oldest waiting task starts exactly when there is one and a slot is free |
| Scheduler.PayFiAgent.TaskSettles | backend/agent.ts:765-768 | the slot is given back and the next task dispatched in one step |
| Scheduler.PayFiAgent.StartDraining | backend/agent.ts:442-445 | the draining flag is set and nothing else changes |
| Scheduler.PayFiAgent.NothingPending | backend/agent.ts:463-477 | the polled condition holds exactly when every accepted task has its result |
| Scheduler.AlwaysConsistent | backend/agent.ts:503-570 | in every reachable state the bounds hold, waiting tasks mean every slot is taken, started tasks followed by waiting ones are the accepted ones in order, and each started task is running or has exactly one result |
| Scheduler.RejectedExactly | backend/agent.ts:509-551 | a task is rejected exactly when draining or when all slots and queue places are taken |
| Scheduler.SubmitExactly | backend/agent.ts:503-554 | in every reachable state a task starts exactly when the agent is not draining and a slot is free, is queued last exactly when no slot and some place is free, and changes nothing when rejected |
| Scheduler.CompleteExactly | backend/agent.ts:560-570 | a completion gives the task its result and starts the task that waited longest, if one waits |
| Scheduler.DrainTakesEffect | backend/agent.ts:442-516 | after `drain` the agent is draining for good and rejects every task without changing anything; `drain` itself changes nothing else |
| Scheduler.DrainingCountsDown | backend/agent.ts:442-477 | after draining starts nothing is accepted and the pending count falls by one at each completion and by nothing else |
| Scheduler.PendingMeansRunning | backend/agent.ts:463-477 | while something is pending some task is running, so the wait cannot get stuck |
| Scheduler.WaitEndsWhenAllSettled | backend/agent.ts:463-477 | the wait condition holds exactly after as many completions as were pending, which is when every accepted task has its result |
| StorageWatcher.ContractStorageWatcher.constructor | backend/tools/ContractStorageWatcherTool.ts:135-166 | an initial state is the baseline at once; otherwise there is none yet |
| StorageWatcher.ContractStorageWatcher.Stop | backend/tools/ContractStorageWatcherTool.ts:168-174 | stopped and no timer pending |
| StorageWatcher.ContractStorageWatcher.ReadEntries | backend/tools/ContractStorageWatcherTool.ts:198-212 | the loop builds the snapshot, the last of several entries with one key counting |
| StorageWatcher.SnapshotHolds | backend/tools/ContractStorageWatcherTool.ts:198-212 | a key has a value in the snapshot if and only if some entry says so and no later entry has that key |
| StorageWatcher.ContractStorageWatcher.EmitChanged | backend/tools/ContractStorageWatcherTool.ts:222-237 | after the loop, in any iteration order, the response's keys are in step and exactly their differences were emitted; at every event the cache is the baseline with the events so far applied |
| StorageWatcher.ContractStorageWatcher.EmitDeleted | backend/tools/ContractStorageWatcherTool.ts:240-254 | the same for the keys the response lacks; then the cache equals the response |
| StorageWatcher.ContractStorageWatcher.Compare | backend/tools/ContractStorageWatcherTool.ts:220-255 | unless a listener throws, the cache equals the response and the events are exactly the differing keys with old and new values; also when one throws the cache stays the baseline with the emitted events applied |
| StorageWatcher.ContractStorageWatcher.BeginPoll | backend/tools/ContractStorageWatcherTool.ts:191-196 | a stopped watcher asks nothing; otherwise the poll is counted |
| StorageWatcher.ContractStorageWatcher.FinishPoll | backend/tools/ContractStorageWatcherTool.ts:197-276 | baseline on the first response, exact differences afterwards, nothing on failure; the next poll is scheduled unless stopped, at the maximum, or dead for lack of an error listener |
| StorageWatcher.ContractStorageWatcher.Watch | backend/tools/ContractStorageWatcherTool.ts:184-276 | over any run of polls with failures, throwing listeners and stops: the emitted events replay the baseline into the cache, the baseline is the initial state or the first response, with quiet listeners the cache is the last response, and polling ends early only if stopped, at the maximum, or when a request failed or a listener threw with nobody listening to errors |
| StorageWatcher.DiffReplays | backend/tools/ContractStorageWatcherTool.ts:220-255 | the exact differences, in any order, replay the earlier state into the later one |
| StorageWatcher.SilentIffSame | backend/tools/ContractStorageWatcherTool.ts:224 | no event if and only if nothing differs |
| StorageWatcher.RunReplays | backend/tools/ContractStorageWatcherTool.ts:220-255 | the differences between successive snapshots, one after the other, replay the first snapshot into the last |
| EventListener.Listener.StopListening | backend/tools/ContractEventListener.ts:59-65 | stopped, timer cleared, nothing else changes |
| EventListener.Listener.TimerExpires | backend/tools/ContractEventListener.ts:69-70 | the timer starts one poll unless the listener is stopped |
| EventListener.Listener.FinishPoll | backend/tools/ContractEventListener.ts:72-129 | cursor, attempts, stop flag, timer and deliveries after a poll, on success and failure, as specified |
| EventListener.Listener.Deliver | backend/tools/ContractEventListener.ts:85-89 | the loop delivers exactly the matching events in order |
| EventListener.MatchesExactly | backend/tools/ContractEventListener.ts:86-87 | an event matches if and only if no type is asked for or one of its topics is among the types |
| EventListener.KeptExactly | backend/tools/ContractEventListener.ts:85-89 | of each matching event as many copies are delivered as there are, of any other none |
| EventListener.DeliveredExactlyOnce | backend/tools/ContractEventListener.ts:77-98 | on a growing chain, whatever fails between polls, the delivered events are exactly the contract's matching events from the start position to the cursor |
| EventListener.DeliveredExactly | backend/tools/ContractEventListener.ts:77-98 | an event of the chain is delivered once if it lies between start and position, is the contract's and has a topic asked for (or none is), and otherwise never; deliveries are in chain order |
| EventListener.StartIsFirstLedger | backend/tools/ContractEventListener.ts:73-80 | the start is the ledger answered to the first poll, and a failure to get it is final |
| EventListener.CursorExactly | backend/tools/ContractEventListener.ts:77-105 | the cursor is the last event of a page, the cursor of an empty page, or unchanged; a page ends the failures in a row, and a failure delivers nothing |
| EventListener.AlwaysDisciplined | backend/tools/ContractEventListener.ts:59-129 | never a poll in flight and a timer at once; a live listener has one of them, a stopped one no timer; failures in a row stay below the maximum until the one that stops it |
| EventListener.StoppedForGood | backend/tools/ContractEventListener.ts:59-70 | after a stop no poll ever starts |
| EventListener.StopsExactlyAtMaximum | backend/tools/ContractEventListener.ts:103-120 | the listener is stopped exactly when someone stopped it or the failures in a row reached the maximum |
| NonceStore.InMemoryNonceStore.PruneOlderThan | backend/nonce_store.ts:169-176 | the loop forgets exactly the nonces recorded before the cutoff |
| NonceStore.InMemoryNonceStore.Has | backend/nonce_store.ts:152-155 | used exactly when recorded within the lifetime; expired nonces are dropped |
| NonceStore.InMemoryNonceStore.Record | backend/nonce_store.ts:157-162 | after pruning, the nonce is recorded unless present, keeping the first time |
| NonceStore.SqliteNonceStore.PruneOlderThan | backend/nonce_store.ts:134-138 | the same map operation on the table |
| NonceStore.SqliteNonceStore.Has | backend/nonce_store.ts:119-124 | the same answer as the map |
| NonceStore.SqliteNonceStore.Record | backend/nonce_store.ts:126-132 | the same new map as the in-memory store |
| NonceStore.DeleteIsPrune | backend/nonce_store.ts:134-138 | deleting old rows is pruning the map, and keys stay unique |
| NonceStore.InsertIsAdd | backend/nonce_store.ts:126-132 | inserting or ignoring is adding to the map, keeps keys unique, and leaves the table alone when the nonce is present |
| NonceStore.Store.Has | backend/nonce_store.ts:119-155 | over either store: expired nonces are dropped and the answer is membership in the rest |
| NonceStore.Store.Record | backend/nonce_store.ts:126-162 | over either store: the new contents are the same function of the old |
| NonceStore.Store.PruneOlderThan | backend/nonce_store.ts:134-176 | over either store: exactly the nonces recorded before the cutoff are dropped |
| X402.X402PaymentTool.Answer | backend/tools/X402PaymentTool.ts:120-185 | over either nonce store: the reply, the gate and the nonces after one response are those of the specified step |
| X402.NoNonceIsPaidTwice | backend/tools/X402PaymentTool.ts:148-185 | in every run, a challenge that expires no later than the recording of its nonce plus the time nonces are kept is not paid again |
| X402.ReplayRefusedExactly | backend/tools/X402PaymentTool.ts:148-185 | in every run and for every lifetime, an admitted, well-formed, unexpired challenge whose nonce was paid before is refused as used if and only if the lifetime since the last payment lasts and no clean-up after a payment swept the nonce; otherwise a working payment is made again |
| X402.StoredIffNotSwept | backend/tools/X402PaymentTool.ts:178-185 | while the lifetime lasts, the nonce last paid is on record, with the time of that payment, if and only if no clean-up swept it |
| X402.KeptIsNotSwept | backend/nonce_store.ts:134-138 | up to the shorter of the configured lifetime and the maximum nothing is swept |
| X402.LongChallengeIsPaidTwice | backend/tools/X402PaymentTool.ts:148-185 | an input: with the default lifetime, a run that pays one nonce twice |
| X402.SweptNonceIsPaidTwice | backend/tools/X402PaymentTool.ts:181-185 | an input: with a longer lifetime, a run in which a clean-up lets one nonce be paid twice |
| X402.GateStep | backend/tools/X402PaymentTool.ts:121-130 | the window moves only after a full minute, and the counter counts the admitted calls of the current window |
| X402.LimitedExactly | backend/tools/X402PaymentTool.ts:121-130 | in every run of a new tool a call is rate-limited if and only if the maximum is zero, or the minute of the window is not over and the maximum was admitted in it |
| X402.AnsweredExactly | backend/tools/X402PaymentTool.ts:132-185 | each answer to an admitted call if and only if its own condition holds and none checked before it does; what is kept of the nonces |
| X402.WindowCounts | backend/tools/X402PaymentTool.ts:121-130 | in every run the counter is the number of calls admitted since the window began, at most the maximum |
| X402.AtMostTwoWindowsPerMinute | backend/tools/X402PaymentTool.ts:71-130 | any half-open minute of any run contains at most twice the maximum of admitted calls |
| Redaction.RedactSecrets | backend/logger.ts:41-56 | the loops compute the leaf-by-leaf redaction of the value |
| Redaction.SecretExactly | backend/logger.ts:43 | what counts as a key: an S and 55 further characters, each a capital letter or a digit from 2 to 7 |
| Redaction.RedactedIsClean | backend/logger.ts:41-44 | no secret is left anywhere in a redacted string, not even across a replacement |
| Redaction.CleanIsUnchanged | backend/logger.ts:43 | text without secrets is unchanged |
| Redaction.RedactIsIdempotent | backend/logger.ts:43 | redacting twice is redacting once |
| Redaction.LeftmostIsReplaced | backend/logger.ts:42-44 | exactly the leftmost secret is replaced, then the rest is redacted |
| Redaction.RedactedValueIsClean | backend/logger.ts:45-55 | every string leaf of the result is the redacted leaf and clean, and shape, keys, order and other leaves are preserved |
| Redaction.CleanValueIsUnchanged | backend/logger.ts:45-55 | a value without secrets is unchanged |
| Swap.PickIsFirstMaximum | backend/tools/SwapTool.ts:95-99 | the reduction picks the first record with the largest amount |
| Swap.ToleratedExactly | backend/tools/SwapTool.ts:88-93 | the deviation is tolerated exactly when the worst amount reaches the unrounded minimum |
| Swap.WholeSurvivesRounding | backend/tools/SwapTool.ts:101 | a whole amount that reaches a threshold reaches it rounded to nearest |
| Swap.SwapBound | backend/tools/SwapTool.ts:80-101 | a plan exists exactly when every path's amount is at least the best times (100 - tolerance) hundredths; it takes the first maximum, its minimum is within half a stroop of that, and every path meets the minimum |
| Swap.RefusedExactly | backend/tools/SwapTool.ts:66-93 | each refusal if and only if: the tolerance is no percentage; no path is offered; no path yields anything; some path falls short of another by more than the tolerance |
| SacTransfers.PositiveRoundTrip | backend/tools/SorobanInvokeTool.ts:59-64 | every amount from zero on prints with exactly seven fraction digits and reads back exactly |
| SacTransfers.RoundTripsExactly | backend/tools/SorobanInvokeTool.ts:59-64 | for any amount, reading back is exact if and only if it is not negative or has no fraction |
| SacTransfers.ExtractSacTransferTotal | backend/tools/SorobanInvokeTool.ts:80-129 | the loop with its early exits computes the sum over the successful agent-debiting events |
| SacTransfers.EachKindDebits | backend/tools/SorobanInvokeTool.ts:106-126 | a transfer, a transfer on behalf of the agent and a burn each count their amount, big integer or number |
| SacTransfers.NothingElseDebits | backend/tools/SorobanInvokeTool.ts:85-126 | a failed call, no body, too few topics, another name, another debited address and other data count nothing |
| SacTransfers.DebitsConcat | backend/tools/SorobanInvokeTool.ts:80-129 | totals add over concatenation |
| SacTransfers.DebitsOfMultiset | backend/tools/SorobanInvokeTool.ts:80-129 | totals do not depend on the order of events |
| SacTransfers.AssertSacTransfersWithinSpendingLimit | backend/tools/SorobanInvokeTool.ts:386-413 | the check on the printed text decides exactly as comparing raw units; only a broadcast that passes is recorded, as one payment to the tracker |
| AccountCache.AccountCacheOf.InvalidateAccountCache | backend/rpc_client.ts:63-69 | one key or everything is dropped |
| AccountCache.AccountCacheOf.LoadFromCache | backend/rpc_client.ts:306-324 | hit or miss as specified, with expired and forced entries dropped on the spot |
| AccountCache.AccountCacheOf.StoreLoaded | backend/rpc_client.ts:338-342 | the fetched account is stored with its expiry unless caching is off |
| AccountCache.AccountCacheOf.FinishSubmit | backend/rpc_client.ts:369-371 | the cache is empty after every submission |
| AccountCache.EntryIsLastStored | backend/rpc_client.ts:338-340 | in every interleaving an entry is the record last stored under its key, not dropped since, with the expiry it was stored with |
| AccountCache.HitExactly | backend/rpc_client.ts:306-343 | an unforced load is a hit exactly when a record was stored under the key less than the lifetime ago and nothing stored or dropped there since, and serves that record |
| AccountCache.ForcedRefreshIsFresh | backend/rpc_client.ts:312-313 | a forced refresh is never served from the cache, and no later load gets a record stored before it |
| AccountCache.FailedRefreshLeavesNothing | backend/rpc_client.ts:321-324 | after a load that found nothing fresh there is no entry until someone stores one |

## Left out

Escrow

- The token contract beyond a ledger of balances: authorisation trees, freezes, trust lines, account-level 64-bit limits.
- A contract authorising in its own name, and storage expiry and archival.
- The text of event topics; events carry their data.

Spending window

- Spending.SpendingTracker.Record: amounts and the limit are integers, because floating-point rounding is not modelled; the 80 % warning only logs.
- A database that fails between two statements of one call; each call has one up or down flag. SQL itself is a sequence of rows. `getWindowStatus` repeats `total`.

Backoff and scheduler

- Callbacks that re-enter the network layer while the queue is drained, and what becomes of a callback after it started, including one that throws before its first wait.
- `getBackoffStatus`, and timers that fire early.
- Tool dispatch, middleware, webhooks and `runSequence`; a listener of `task:failed` that throws inside the error path, so that the result is lost.

Watcher and listener

- Listeners that call the watcher while it emits, listeners of `poll` that throw, the `done` event, key normalisation, and overlapping direct calls of `poll`.
- EventListener.Listener.FinishPoll: callbacks do not throw; an event's token is its position, and paging tokens as opaque strings, back-off delays and the wire format are not modelled.
- Delivery by a poll already in flight when the listener is stopped is modelled as the code has it, but nothing is promised about it.

Nonces and x402

- X402.X402PaymentTool.Answer: one call at a time; two interleaved calls with one nonce can both pay in the source, and nothing is claimed for them. Memo hashing, schema parsing and origin checks are one flag.
- The proof verification `verify` and `extractOp`, table creation and indexes, and a clean-up failing after the payment.

Algorithms

- Redaction.RedactedValueIsClean: an own key named `__proto__`, cyclic objects, and values whose content is not in enumerable properties.
- Swap.SwapBound: exact rationals instead of floating point; asset parsing and the submission of the path payment are not modelled.
- SacTransfers.ExtractSacTransferTotal: events arrive decoded, numbers are whole.
- SacTransfers.AssertSacTransfersWithinSpendingLimit: exact reading of the printed text instead of `parseFloat`.

Account cache and the rest

- Retries, timeouts, the circuit breaker and the network call itself; a builder changing a cached record in place; freshness of a record whose fetch began before an invalidation.
- The thin transaction tools, the HTTP server, configuration, telemetry, webhook delivery, setup and example scripts.
