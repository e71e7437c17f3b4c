# AI Ops Center queue and ledgers: verified model

A Dafny model of the parts of AI Ops Center whose correctness depends on interleaving, timing and retries:

- **The leased task queue.** Workers claim rows under a token and a lease, renew, complete or fail them. A steward
  recovers expired leases, dead-letters exhausted tasks and moves queued work between machines until nothing is left to
  move (`Rebalancing`, `Convergence`); failover is a second mover. Each database transaction is one step on a task row
  (`LeaseProtocol`), a table run is any interleaving of such steps on any rows, and the class `TaskStore.Store` and the
  methods of `Steward` and `Failover` are proved to do exactly those steps. Time is an `int` of microseconds.
  `Worker` models one worker's loop around a task: renew while it executes, then complete or fail.
- **The derived ledgers.** Operator requests and peer requests that mirror task states (`ControlPlane`), and the queue
  snapshot that counts every queued row in one class (`QueueHealth`). `StewardQueue` is the steward's whole transaction:
  reconciliation of these ledgers, then the sweep.
- **At-most-once execution.** Signed capability messages, nonces, receipts and acknowledgements, with a crash possible
  between any two transactions and any number of worker processes (`Execution`); and the instruction replay guard that
  forgets expired nonces (`ReplayGuard`).
- **The feature ledger.** The PET and Brain transition procedures as an append-only event log with a materialised row,
  row versions and idempotency keys (`FeatureLedger`), and the parser of the catalog that seeds it (`CatalogParser`,
  `CatalogPrinting`).
- **The dashboard token.** Unpadded base64url (sections 3.2 and 5 of RFC 4648) and the issue/verify time window
  (`DashboardToken`).

Cryptography, JSON, regular expressions, uuids and clocks are parameters: HMAC is a function, the JSON encoder and
decoder are assumed to be inverse, tokens are assumed fresh where a theorem says so, and theorems about time assume one
clock that never goes back. A PostgreSQL query is a selection in the query's order that skips the rows in a given set of
locked rows.

`dafny verify dfyconfig.toml` checks the whole project.

## What the code does that its documentation does not say

- `max_attempts` bounds the number of claims exactly when it is positive. Lease recovery reads a stored 0 as 3
  (`int(task.get("max_attempts") or 3)`), while `fail_task` does not, so such a task can be claimed more than once
  (`Fencing.ZeroMaxAttemptsIsClaimedTwice`). No code in the repository writes the column, whose default is 3: a stored 0
  needs an update by hand, which no constraint prevents.
- A receipt that says `held` does not mean that nothing happened. On any run the handler ran all the same exactly when
  its run was lost (the process crashed before it recorded the receipt, the handler itself answered held, or the receipt
  was refused) or is still in flight while another process recorded the receipt of a redelivery
  (`Execution.HeldReceiptHidesAnInvocationExactlyWhen`).
- A task that raises a TimeoutError is failed only if a renewal of its lease is refused: from Python 3.11 on that is the
  error by which the renewal loop recognises a poll timeout, so it polls and renews as long as its lease holds
  (`Worker.RaisedTasksFailExactlyWhen`, `Worker.FailIsReportedExactlyWhen`, `Worker.TimeoutErrorsAreRenewedForEver`).
- A lost lease is not a lost claim: a worker whose renewal came too late still requeues or dead-letters the task, unless
  the steward or another worker has taken the claim by then (`Worker.LostLeaseStillFails`). A result that comes too late
  is dropped without a report, and the row waits for the steward (`Worker.ClaimIsLeftBehindExactlyWhen`).
- The catalog migration can be run again only until a transition is applied in the name of the catalog itself; after
  that it raises an integrity failure every time (`FeatureLedger.SeedingAgainCommitsExactlyWhen`,
  `FeatureLedger.SignedTransitionBlocksSeeding`).
- The forgetting replay guard decides like a never-forgetting one exactly when no nonce is used again after its first
  use has expired (`ReplayGuard.ForgettingIsInvisibleIffNoLateReuse`). No envelope is accepted twice in any case.
- A repeated idempotency key is not compared with the whole earlier request. The PET ledger silently drops a changed
  expected version, verification time or expiry; the Brain ledger also a changed release id, implementation reference or
  evidence manifest (`FeatureLedger.ReusedKeyIsRefusedExactlyWhen`, `FeatureLedger.FieldsDroppedOnRepeat`).
- A signed dashboard token without an issue time is accepted: the default of `current + 1` is never more than 60 seconds in
  the future (`DashboardToken.AcceptedClaimsMean`).
- At the exact microsecond of a lease's deadline the row can be neither completed or renewed by its holder nor recovered
  by the steward; its holder can still fail it (`Backoff.RecoveryAndCompletionExclude`).

## Model

| member | source | states |
|---|---|---|
| LeaseProtocol.RowsAreIndependent | ai_ops_center/orchestrator.py:95-257 | in any run of the table, each row, there from the start or created on the way, does exactly what its own transactions do to it |
| LeaseProtocol.RunKeepsClaimState | ai_ops_center/orchestrator.py:95-257 | on every run: running iff token set iff lease set, running rows run where they are routed, routing agrees with the agent's machine, attempts stay within a positive max_attempts |
| LeaseProtocol.TerminalIsAbsorbing | ai_ops_center/orchestrator.py:149-257 | completed, failed and cancelled rows never change status, result, attempts, token or lease again |
| LeaseProtocol.MoversOnlyTouchRouting | ai_ops_center/queue_manager.py:625-635 | reroutes and failover only apply to queued rows, keep routing coherent and leave attempts, back-off, claim and result alone |
| TableRuns.EveryReachableRowIsGood | ai_ops_center/orchestrator.py:52-257 | the claim-state, routing and attempt invariants hold of every row in every reachable table, if they hold of the rows it starts with and of those that are created |
| TableRuns.RowRunsInheritFreshnessAndClock | ai_ops_center/orchestrator.py:95-146 | a table run with fresh tokens and one clock gives every row of the final table, old or created, such a run from its first state, so all row theorems apply to it |
| TableRuns.ClaimsOfAnyTask | ai_ops_center/queue_manager.py:23-25 | over any run of the whole queue any fresh task, old or created, is claimed within its budget, with exponential spacing |
| Fencing.CompletionIsFinal | ai_ops_center/orchestrator.py:149-188 | after an accepted completion the result never changes and every later claim, renew, complete, fail or recovery is refused |
| Fencing.CompletesAtMostOnce | ai_ops_center/orchestrator.py:149-188 | in every interleaving, whatever the clocks do, a task completes at most once |
| Fencing.ResultComesFromLatestClaim | ai_ops_center/orchestrator.py:156-188 | the stored result is the one sent by the machine and token of the latest accepted claim, with no claim, failure or recovery in between |
| Fencing.SupersededClaimIsFenced | ai_ops_center/orchestrator.py:191-257 | once a claim has been ended, every later complete, renew and fail with its token is refused |
| Fencing.AttemptsCountClaims | ai_ops_center/orchestrator.py:95-146 | attempt_count is the initial count plus the number of accepted claims on every run |
| Fencing.ClaimsAreBounded | ai_ops_center/queue_manager.py:484-518 | no run claims a fresh task more often than its budget: max(1, max_attempts), or 3 for a stored zero |
| Fencing.MaxAttemptsBoundsClaimsIffPositive | ai_ops_center/queue_manager.py:484-518 | max_attempts bounds the claims of a claimable fresh task on all runs if and only if it is at least 1 |
| Fencing.ZeroMaxAttemptsIsClaimedTwice | ai_ops_center/queue_manager.py:484-518 | a concrete run that claims a task with max_attempts 0 twice |
| Fencing.ClaimedExactlyUnlessHeld | ai_ops_center/queue_manager.py:40-47 | on no run is a task claimed that is pending, awaiting or blocked by approval or lacks a required one; any other waiting task is claimed by some run |
| Fencing.FailedTasksAreExhausted | ai_ops_center/queue_manager.py:485-511 | on every run a task with a positive max_attempts that did not start as failed is failed only with its attempts used up: nothing is dead-lettered early |
| Fencing.FailedTasksWereClaimedInFull | ai_ops_center/orchestrator.py:218-257 | a fresh task that has failed has been claimed exactly max_attempts times |
| Backoff.ClaimsAreSpaced | ai_ops_center/queue_manager.py:501-511 | consecutive claims of one task are at least retry_delay_seconds(attempts) apart on every run |
| Backoff.BackoffIsExponential | ai_ops_center/queue_manager.py:23-25 | the n-th claim comes at least 5(2^(n-1) - 1) seconds after the first for n up to 7, and 315 + 300(n-7) after that |
| Backoff.DelaySchedule | ai_ops_center/queue_manager.py:23-25 | the delays are 5, 10, 20, 40, 80, 160 seconds, and 300 from the seventh attempt on |
| Backoff.LiveWorkerIsNeverPreempted | ai_ops_center/worker.py:274-283 | a worker that renews before each deadline keeps its claim through any interleaving, and its completion inside the lease is accepted |
| Backoff.RecoveryAndCompletionExclude | ai_ops_center/queue_manager.py:469-483 | recovery and accepted completion are never enabled together; neither is enabled exactly at the deadline, where a renewal is refused too and only a failure is accepted |
| Worker.OthersCannotTakeTheClaim | ai_ops_center/queue_manager.py:469-518 | whatever processes that do not know the token do before the deadline, on any rows, the claim and its lease survive |
| Worker.PollKeepsTrack | ai_ops_center/worker.py:274-283 | a poll that times out before the deadline renews successfully and leaves the worker on track for the remaining polls |
| Worker.RenewalsLastTwoMinutes | ai_ops_center/orchestrator.py:191-215 | each renewal of a worker extends the lease to 120 seconds after its poll and changes nothing else of the row |
| Worker.ExecuteWithHeartbeats | ai_ops_center/worker.py:274-283 | the renewal loop ends exactly as the answers and the tables that its renewals meet decide: an answer that is not a timeout ends it, or a refused renewal, whichever comes first; it adds exactly its own renewals to what others do, and with every poll in time it never reports a lost lease and still holds the claim |
| Worker.EndsOnce | ai_ops_center/worker.py:274-283 | the answers and the tables met determine how the loop ends and after how many polls |
| Worker.RaisedTasksFailExactlyWhen | ai_ops_center/worker.py:274-283 | for a future that keeps its answer: the lease is reported lost iff the table refuses some renewal; otherwise the execution fails iff the task raised something other than a TimeoutError, which is taken for a poll timeout at every poll |
| Worker.TimeoutErrorsAreRenewedForEver | ai_ops_center/worker.py:274-283 | however many polls there are, while they come in time a task that raised a TimeoutError is renewed after each of them and never failed |
| Worker.FailIsReportedExactlyWhen | ai_ops_center/worker.py:46-57 | a task goes through fail iff a renewal was refused, or it raised something other than a TimeoutError, or its blank result would have completed it in time; one that raised a TimeoutError iff a renewal was refused |
| Worker.LostLeaseStillFails | ai_ops_center/worker.py:274-283 | after a refused renewal the failure is accepted, and the task requeued or dead-lettered by its attempts, iff the row still carries the claim then |
| Worker.ClaimIsLeftBehindExactlyWhen | ai_ops_center/worker.py:46-57 | the worker leaves its claim on the row iff it died holding it, or its result came after the deadline and before anybody took the claim |
| Worker.WorkOnTask | ai_ops_center/worker.py:46-57 | in every case the report and the table are fixed by the execution and the table that the report meets: dropped without a live claim, completed with the result, or through fail if the result is blank, the execution raised or the lease was lost; with polls and report in time the claim is never called stale |
| Worker.TimelyReports | ai_ops_center/worker.py:46-57 | a report in time completes a non-blank result and never has its failure rejected as stale |
| TaskStore.Store.CreateTask | ai_ops_center/orchestrator.py:52-75 | appends one queued row of the column defaults on its agent's machine, or nothing for an unknown agent |
| TaskStore.Store.ClaimNext | ai_ops_center/orchestrator.py:95-146 | claims an unlocked row that is queued, out of back-off, free of approval holds and assigned to this machine, and that no other such row is ahead of in claim order; sets its claim and its lease, counts the attempt and changes nothing else; returns nothing only if there is no such row |
| TaskStore.Store.CompleteTask | ai_ops_center/orchestrator.py:149-188 | true exactly for a running row with this token and machine before its deadline and a result that is not blank; then stores result and time and drops the claim |
| TaskStore.Store.RenewLease | ai_ops_center/orchestrator.py:191-215 | true exactly for the live claim, whose lease then ends lease_seconds after now |
| TaskStore.Store.FailTask | ai_ops_center/orchestrator.py:218-257 | rejected exactly without the claim, else requeued with the back-off of its attempts, or dead-lettered exactly if these have reached max_attempts; the row is stated in full |
| TaskStore.FirstIsBest | ai_ops_center/orchestrator.py:103-131 | the first row of the claim query is claimable and no claimable row is ahead of it; no row means nothing is claimable |
| Queries.OlderComesFirst | ai_ops_center/orchestrator.py:103-131 | an older task of at least equal priority is strictly ahead of a younger one |
| Queries.OvertakingNeedsTwentyPoints | ai_ops_center/orchestrator.py:103-131 | a task under an hour old is taken before one of 20 hours or more only with a priority more than 20 higher |
| Queries.Query | ai_ops_center/queue_manager.py:469-484 | an ordered, limited, lock-skipping query returns the first matches in order, each once, and misses none before its limit |
| Queries.SelectionMeans | ai_ops_center/queue_manager.py:469-484 | a query returns distinct matching rows in order, all of them unless it reaches its limit, and none that is left out comes before one that is returned |
| Queries.ClaimOrderMeans | ai_ops_center/orchestrator.py:103-131 | the claim order in numbers: priority plus full hours of age, of which at most twenty count, then the older row |
| Queries.HealthyNodes | ai_ops_center/queue_manager.py:520-543 | the fleet is exactly the employed machines that are online and were seen in the last 60 seconds, with a capacity of at least one |
| Queries.PickAgent | ai_ops_center/queue_manager.py:604-624 | the agent chosen is active on the machine, of the task's category if any active one there is, and first by id among its equals; none only if nobody is active there |
| Balancing.RankingMeans | ai_ops_center/queue_manager.py:90-99 | an idle machine ranks before every busy one, then the smaller load per capacity compared crosswise without division, then the machine id |
| Balancing.RankIsTotal | ai_ops_center/queue_manager.py:90-99 | idle first, then load per capacity, then id: the ranking is a total preorder |
| Balancing.NameLeqMeans | ai_ops_center/queue_manager.py:90-99 | names are compared at their first difference, and a prefix comes first |
| Balancing.SelectsBestCandidate | ai_ops_center/queue_manager.py:102-118 | the fallback target is the best-ranked admissible machine, and there is none only if no machine is admissible |
| Balancing.DecideMeans | ai_ops_center/queue_manager.py:102-136 | the decision in counts and seconds: a row goes to g iff g is the best-ranked other machine, with room if the source is in the fleet, and the source is not in the fleet, or has two tasks more, or runs nothing while the row, moved less than twice, has waited 60 seconds |
| Balancing.LoadsAreCounts | ai_ops_center/queue_manager.py:520-543 | the loads are the numbers of running and of queued rows assigned to each machine of the fleet |
| Balancing.WorkingLoadsAreARecount | ai_ops_center/queue_manager.py:642-644 | after each move the adjusted working loads equal a full recount of the table, and the floor at zero never cuts anything off |
| Balancing.BalancingRespectsCapacity | ai_ops_center/queue_manager.py:121-136 | a move off a healthy machine never leaves its target above capacity |
| Rebalancing.EveryMoveLowersTheMeasure | ai_ops_center/queue_manager.py:121-136 | every steward move strictly lowers (work outside healthy machines, starvation moves left, sum of squared loads) lexicographically |
| Rebalancing.QuietStepsNeverGrow | ai_ops_center/orchestrator.py:95-257 | claim, renew, fail, complete, recovery and default assignment never raise any component of that measure |
| Rebalancing.RerouteConservesTheQueue | ai_ops_center/queue_manager.py:642-644 | a move leaves the number of queued rows as it was, and the queued total of the loads too, plus one for a row from outside the healthy machines |
| Rebalancing.RebalancingTerminates | ai_ops_center/queue_manager.py:544-648 | with n active tasks and fixed healthy machines all sweeps together make at most 7n² + 6n moves in any interleaving |
| Convergence.SweepingSettles | ai_ops_center/queue_manager.py:520-648 | with n active tasks, fixed healthy machines and any worker steps in between, all but 7n² + 6n of the sweeps whose query is not cut short make no move, leave nothing that the rule wants to move, and leave all portable due work on healthy machines if these are staffed |
| Convergence.SomeSweepIsSettled | ai_ops_center/queue_manager.py:520-648 | among any 7n² + 6n + 1 such sweeps there is one of that kind |
| Convergence.RoundsAreATrace | ai_ops_center/queue_manager.py:426-652 | any number of sweeps with worker steps in between are together one run of allowed steps, whose moves are those that the sweeps report |
| Steward.DefaultedAt | ai_ops_center/queue_manager.py:460-467 | default assignment takes one step on each row: exactly the rows without a machine get the machine of their agent |
| Steward.AssignDefaults | ai_ops_center/queue_manager.py:460-467 | the statement computes the table after default assignment of every row |
| Steward.SelectExpired | ai_ops_center/queue_manager.py:469-484 | the rows to recover are exactly the first unlocked expired ones in query order |
| Steward.ExpiredSelectionMeans | ai_ops_center/queue_manager.py:469-484 | the rows to recover are running with an expired lease, or without a token and quiet for ten minutes; earliest deadline first, then by priority; the rest is left only when max_moves is reached |
| Steward.RecoverExpired | ai_ops_center/queue_manager.py:485-518 | each selected row with a positive max_attempts is failed if its attempts have reached it, else queued without its claim behind its back-off; a stored zero counts as three; the counters are the sizes of these two sets; other rows stay |
| Steward.RecoveredMeans | ai_ops_center/queue_manager.py:485-518 | the whole recovered table, row by row |
| Steward.RerouteOne | ai_ops_center/queue_manager.py:565-648 | one queued row is held iff it is held for approval or pinned, moved iff the rule on this table's counts sends it to its first choice and an agent is active there, with the target, reason, generation and best agent of the rule, and stays otherwise; the adjusted loads stay a recount |
| Steward.MovedExactlyWhen | ai_ops_center/queue_manager.py:565-648 | in numbers of rows: with its first choice staffed, a portable row is moved there iff its machine is not in the fleet, or has at least two tasks more, or runs nothing while the row, moved less than twice, has waited 60 seconds |
| Steward.RerouteQueued | ai_ops_center/queue_manager.py:565-648 | the rows are decided one after the other by that rule, each on the table the earlier ones left, until the move that reaches max_moves; held rows are counted exactly; the loads end as a recount |
| Steward.DecidedMeans | ai_ops_center/queue_manager.py:565-648 | any such sequence of decisions is a trace of allowed steps that explains every change and touches no other row |
| Steward.NoMovesMeansNothingToMove | ai_ops_center/queue_manager.py:565-648 | quiescence: if the rule moved none of the rows, its counts send none of them to a staffed machine |
| Steward.NothingToMoveMeans | ai_ops_center/queue_manager.py:565-648 | after a complete sweep without a move each portable due row with a staffed first choice is in the fleet, on a machine with at most one task more, which runs something unless the row was moved twice or is fresh |
| Steward.Prepare | ai_ops_center/queue_manager.py:460-518 | default assignment then recovery of the selected rows; due rows, metadata and assigned machines are unchanged |
| Steward.Balance | ai_ops_center/queue_manager.py:520-648 | the due rows are the first unlocked ones in claim order and are decided by the rule; moves and held count are those of its outcomes |
| Steward.BalanceAchieves | ai_ops_center/queue_manager.py:520-648 | with all due rows dealt with: moves left over and staff on every machine mean complete evacuation, and no move means nothing is left that the rule wants to move |
| Steward.DueSelectionMeans | ai_ops_center/queue_manager.py:544-563 | the rows to reroute are queued, untouched for 15 seconds and out of back-off, first in claim order; the rest is left only at the limit |
| Steward.SweepRows | ai_ops_center/queue_manager.py:460-652 | a sweep is its three phases exactly (default assignment, recovery of the selected rows, the rule on the due rows) with exact counters, a trace of allowed steps that leaves held and pinned rows alone, evacuates completely when it has moves left, and is quiescent when it makes no move |
| Steward.Sweep | ai_ops_center/queue_manager.py:426-652 | refuses max_moves outside 1..500, changes nothing without the advisory lock, and otherwise keeps the promise of a sweep |
| StewardQueue.StewardQueue | ai_ops_center/queue_manager.py:426-652 | one steward call: nothing without the lock or with a bad limit, else the reconciliation of the first open ledger rows, row by row and with exact counters, and then a sweep that keeps its promise from there |
| StewardQueue.StewardKeepsGoodTables | ai_ops_center/queue_manager.py:426-652 | if claim state, routing and attempt bounds hold of every row before a steward call they hold of every row after it, materialised peer tasks included |
| Steward.LoopEvacuates | ai_ops_center/queue_manager.py:543-648 | if the loop dealt with every due row, no portable due row remains off the healthy machines |
| Steward.LoopKeepsHeldRows | ai_ops_center/queue_manager.py:28-37 | rows that are not portable keep their machine and generation |
| Failover.TopAgents | ai_ops_center/failover.py:178-199 | the first three active agents of a machine by role and then id, each once, and nobody left out who comes before them |
| Failover.BestOfMeans | ai_ops_center/failover.py:178-199 | the first n of a set in a total order are sorted, distinct, cut short only by the set, and nothing left out precedes them |
| Failover.ChooseFallbackAgent | ai_ops_center/failover.py:174-215 | the first usable agent of the list: preferred agent, then the top agents of each fallback machine |
| Failover.FallbackMeans | ai_ops_center/failover.py:174-215 | a usable preferred agent is always chosen, and nobody is chosen iff no candidate of the list is usable |
| Failover.MachinesInOrder | ai_ops_center/failover.py:174-215 | the chosen agent is the preferred one if usable, else the first usable top agent of the first fallback machine that has one |
| Failover.FirstUsableIsFirst | ai_ops_center/failover.py:199-215 | the chosen candidate is the first in the list that can be used |
| Failover.EvaluateFailover | ai_ops_center/failover.py:57-149 | nothing unless the battery is at most 5 percent or the machine is offline, stale or blocked; else the table takes exactly one Failover step for each selected row that has a fallback, and the report lists these |
| Failover.FailoverSelectionMeans | ai_ops_center/failover.py:70-88 | the rows are queued and unlocked on this machine, by priority and then longest untouched; the rest is left only at fifty |
| Failover.FailoverMeans | ai_ops_center/failover.py:84-147 | a selected row with a fallback goes to that active agent on another machine that is online and was seen in the last 60 seconds, coherent, with attempts, back-off and status untouched; every other row stays as it is |
| Failover.ReportIsExact | ai_ops_center/failover.py:119-143 | a row changed iff the report lists it, with its agents before and after |
| Failover.FallbacksLeadElsewhere | ai_ops_center/failover.py:13-34 | in the configured tables no agent and no machine falls back to itself |
| Failover.FallbacksCoverTheFleet | ai_ops_center/failover.py:29-34 | each of the four machines falls back to the other three, to the brain first |
| Failover.SubstitutesAreThese | ai_ops_center/failover.py:13-27 | who stands in for whom |
| Failover.RolesInOrder | ai_ops_center/failover.py:178-199 | orchestrator, coordinator, programmer and research lead come in this order before all others |
| ControlPlane.ParentStatusMeaning | ai_ops_center/queue_manager.py:50-61 | completed iff all tasks completed and some exist, failed iff all terminal and some not completed, running iff some running |
| ControlPlane.ParentStatusIsOrderIndependent | ai_ops_center/queue_manager.py:50-61 | the parent status depends only on which task statuses occur |
| ControlPlane.LedgersStayAligned | ai_ops_center/queue_manager.py:293-423 | in every later state a closed request keeps its status and summary, its tasks are all terminal and derive both; no peer request is materialised twice |
| ControlPlane.LedgerRunsAreTableRuns | ai_ops_center/queue_manager.py:293-423 | for the task table a run of the control plane is a table run, so everything proved about table runs covers it |
| ControlPlane.LedgerRunsKeepGoodTables | ai_ops_center/queue_manager.py:367-392 | claim state, routing coherence and attempt bounds hold of every row in every state of the control plane, also of the tasks made out of peer requests |
| ControlPlane.PeerTasksAreGood | ai_ops_center/queue_manager.py:345-380 | a task made out of a peer request for an active agent of its target is coherent, unclaimed and has attempts left |
| ControlPlane.Ledgers.SyncRequests | ai_ops_center/queue_manager.py:297-325 | each selected open request with tasks is completed, failed or running iff its tasks say so, and takes their results as summary when that changes; others stay; the counter counts exactly the rows that changed |
| ControlPlane.SyncedFollows | ai_ops_center/queue_manager.py:50-61 | a synced request follows its tasks: completed iff there are some and all are, failed iff all ended and some otherwise, running iff some runs |
| ControlPlane.RequestSelectionMeans | ai_ops_center/queue_manager.py:297-310 | the first open unlocked requests by priority and age; the rest is left only at the limit |
| ControlPlane.ResultTextsMean | ai_ops_center/queue_manager.py:318-318 | the summary quotes, in the order of ids, exactly the results of the request's tasks that are not empty |
| ControlPlane.SummaryMeans | ai_ops_center/queue_manager.py:319-325 | as paragraphs, up to 4000 characters |
| Text.StripMeans | ai_ops_center/queue_manager.py:318-318 | stripping a result cuts off white space at both ends and nothing else |
| ControlPlane.SyncedAllAt | ai_ops_center/queue_manager.py:297-325 | pointwise: a selected request is synced with its tasks, any other is as it was |
| ControlPlane.Ledgers.SyncPeer | ai_ops_center/queue_manager.py:338-421 | the request is fulfilled iff its task is completed, rejected iff it failed or was cancelled, in progress iff it runs, requested iff it waits; response, responder and first response time follow; a task is inserted iff the request is open, has none and an agent is there, and it is a good row |
| ControlPlane.PeerStepMirrors | ai_ops_center/queue_manager.py:396-421 | the same of the step on the tables |
| ControlPlane.PeerStepMaterialises | ai_ops_center/queue_manager.py:345-395 | the inserted task is queued for that agent on the target, with the request's priority, and linked |
| ControlPlane.PeerSelectionMeans | ai_ops_center/queue_manager.py:327-342 | the first open unlocked peer requests by priority and age; the rest is left only at the limit |
| ControlPlane.Ledgers.Reconcile | ai_ops_center/queue_manager.py:293-423 | the first open unlocked requests and then the first open unlocked peer requests, each in query order up to the limit, as one run of the control plane; row by row each follows or mirrors its tasks and all others stay; the three counters are the requests changed, the tasks created and the peer requests whose status changed |
| QueueHealth.ClassesPartition | ai_ops_center/queue_manager.py:198-252 | eligible, approval-held, retry-waiting and machine-bound rows partition the queue; reroutable rows are eligible; the two counting passes cover the eligible rows |
| QueueHealth.ClassesAgreeWithClaims | ai_ops_center/orchestrator.py:103-131 | the rows counted for a machine are exactly those its worker could claim now; held and waiting rows exactly those that no worker could |
| QueueHealth.OffTheFleetMeans | ai_ops_center/queue_manager.py:221-236 | a claimable row off the healthy machines is eligible iff it is portable and one is healthy, else stranded |
| QueueHealth.ReroutableMeans | ai_ops_center/queue_manager.py:221-227 | a row is reroutable iff it is portable, not waiting, and some healthy machine is not its own |
| QueueHealth.HoldReasonMeans | ai_ops_center/queue_manager.py:64-87 | there is no reason iff the task is claim-eligible, out of back-off and on a healthy machine or portable; a caller's own text replaces every reason but the back-off's |
| QueueHealth.ReasonsMean | ai_ops_center/queue_manager.py:64-87 | which reason a waiting task gets: queue state, then missing approval, then back-off, then bound machine, with the caller's text in place of all but the back-off |
| QueueHealth.WaitingRowsHaveReasons | ai_ops_center/queue_manager.py:64-87 | every row held for approval or back-off gets a reason; a machine-bound row lacks one only if it is unassigned or nothing is healthy |
| QueueHealth.AdvanceCounts | ai_ops_center/queue_manager.py:209-243 | counting one more row under its class keeps every counter, dictionary and the oldest age exact |
| QueueHealth.CountRow | ai_ops_center/queue_manager.py:209-243 | the loop body counts the row under the class it belongs to by the independent class definitions |
| QueueHealth.CountOffHealthy | ai_ops_center/queue_manager.py:244-252 | the second pass counts exactly the eligible rows that are not on a healthy machine |
| QueueHealth.Snapshot | ai_ops_center/queue_manager.py:198-275 | the counters are the class sizes and add up to the queue, nothing is unexplained, hold reasons and per-machine counts are exact, the oldest age is attained |
| QueueHealth.StalledIsRecoverable | ai_ops_center/queue_manager.py:161-173 | what the report counts as stalled is exactly what the steward would recover, were nothing locked |
| QueueHealth.ReportHealth | ai_ops_center/queue_manager.py:139-290 | the whole report over one table: the snapshot of its queued rows, running, stalled and recently completed rows, the drain estimate, idle machines and the three published invariants, of which "no unexplained waiting" always holds |
| QueueHealth.ThroughputCountsCompletions | ai_ops_center/queue_manager.py:190-196 | on every run, the completed rows that the report counts are those of the start plus the completions accepted since the cutoff |
| QueueHealth.DrainMeans | ai_ops_center/queue_manager.py:258-258 | the estimate times the throughput is the eligible work; there is none iff there is work but no throughput |
| Execution.EveryRunIsSafe | ai_ops_center/worker.py:116-149 | the nonce, receipt and acknowledgement invariants hold on every run with crashes, redeliveries and concurrent processes |
| Execution.NoNonceRunsTwice | ai_ops_center/pet_machine_capabilities.py:304-335 | no run invokes the handler twice for one machine and nonce |
| Execution.OnlyAuthorisedMessagesAct | ai_ops_center/pet_machine_capabilities.py:285-317 | on every run each handler run goes back to a step at which the message carried the right signature, was for this machine and authorised, under the active key and known contract, for the executor of a known capability, approved where that is asked, inside its time window, of a recorded dispatch with an unused nonce |
| Execution.AtMostOnceExecution | ai_ops_center/worker.py:116-149 | at most one invocation per request and machine, exactly one if its receipt says completed or failed, and acknowledgements only with a recorded receipt |
| Execution.ReceiptsAreFinal | ai_ops_center/pet_machine_capabilities.py:538-547 | there is one receipt per request and machine and no later step replaces it |
| Execution.HeldReceiptHidesAnInvocationExactlyWhen | ai_ops_center/pet_machine_capabilities.py:285-335 | on every run, a request with a held receipt had its handler run iff some step lost a handler run for it (crash, handler that answers held, refused receipt) or one is still in flight |
| Execution.RanExactlyWhen | ai_ops_center/pet_machine_capabilities.py:285-335 | on every run, a request ran iff it is reported by a completed or failed receipt, lost by such a step, or in flight |
| Execution.LostMeans | ai_ops_center/worker.py:116-149 | a handler run is lost on a run iff one of its steps is such a crash, answer or refusal |
| Execution.HeldReceiptMeansNothingRanExactlyWhen | ai_ops_center/pet_machine_capabilities.py:304-335 | when one undisturbed delivery records held, nothing has run for the request iff nothing had run before and the handler did not run now only to answer held |
| Execution.HeldReceiptCanHideAnInvocation | ai_ops_center/pet_machine_capabilities.py:285-335 | the crash as a concrete run: the handler ran once and the recorded receipt says held |
| Execution.HeldReceiptWhileInFlight | ai_ops_center/worker.py:116-149 | a concrete run that loses no handler run: a redelivery records held while the first process is still acting, so the handler ran once |
| Execution.DeliveredMeans | ai_ops_center/worker.py:116-149 | the six steps of an undisturbed delivery, written out as one effect on the tables |
| Execution.Tables.ConsumeExecution | ai_ops_center/worker.py:116-149 | without a receipt it is refused iff one of these checks fails, and then changes nothing; else it consumes the nonce, invokes and records exactly as the tables and flags say, and acknowledges only with a recorded receipt |
| Execution.Tables.Execute | ai_ops_center/pet_machine_capabilities.py:313-335 | after the permission checks: consumes the nonce exactly if it is accepted and invokes exactly if it was consumed, the payload is valid and the capability enabled |
| ReplayGuard.SignedEnvelopesPass | ai_ops_center/pet_instruction_protocol.py:118-189 | a signed envelope passes all checks iff it is well formed, meant for this machine, in time and within the TTL |
| ReplayGuard.DenialsMean | ai_ops_center/pet_instruction_protocol.py:118-160 | malformed comes first, then a signature that is not the MAC, then another machine, then the time, then the TTL |
| ReplayGuard.InMemoryReplayGuard.Consume | ai_ops_center/pet_instruction_protocol.py:48-64 | prunes expired entries, then accepts and stores exactly an unseen key |
| ReplayGuard.VerifyInstruction | ai_ops_center/pet_instruction_protocol.py:127-189 | accepted iff well formed, signed with the signer's secret of 32 bytes, for this machine, in time, within the TTL, with the store up and the nonce not held; the new guard state in every case; denials before the guard answers do not touch it |
| ReplayGuard.NoEnvelopeIsAcceptedTwice | ai_ops_center/pet_instruction_protocol.py:38-64 | although the guard forgets, no envelope is accepted twice on any run with a non-decreasing clock |
| ReplayGuard.HeldNoncesAreRecent | ai_ops_center/pet_instruction_protocol.py:153-189 | every retained nonce was accepted less than maximum_ttl + future_skew ago |
| ReplayGuard.RefusalsConsumeNothing | ai_ops_center/pet_instruction_protocol.py:153-189 | a message that is not accepted adds no nonce |
| ReplayGuard.ForgettingIsInvisibleIffNoLateReuse | ai_ops_center/pet_instruction_protocol.py:48-64 | the forgetting guard makes all decisions of a never-forgetting one iff no nonce is reused after its first use expired |
| ReplayGuard.LateReuseIsAccepted | ai_ops_center/pet_instruction_protocol.py:48-64 | a concrete late reuse: two envelopes with one nonce are both accepted, where a never-forgetting guard accepts only the first |
| ReplayGuard.UniqueNoncesMakeForgettingInvisible | ai_ops_center/pet_instruction_protocol.py:48-64 | if each signer and nonce belongs to one envelope, all decisions equal those of a never-forgetting guard |
| FeatureLedger.AppliedExactlyWhen | scripts/generate_pet_feature_catalog.py:335-369 | a transition is applied iff its key is new, the feature is at the expected version, state and texts are valid, an expiry follows a verification, and Operational comes with a release and a verification; in the Brain ledger also with valid statuses, a hash as manifest and, if Operational, full evidence |
| FeatureLedger.AppliedMeans | scripts/generate_pet_feature_catalog.py:358-369 | the row and the event that an applied transition writes |
| FeatureLedger.RefusalsMean | scripts/generate_pet_feature_catalog.py:335-357 | which error a refused transition gets |
| FeatureLedger.TransitionIsSound | scripts/generate_brain_feature_catalog.py:284-317 | a transition keeps the log chained, its keys distinct, the rows equal to the fold of the log, and operational rows backed |
| FeatureLedger.LedgerIsTheFoldOfItsLog | scripts/generate_brain_feature_catalog.py:229-317 | on every run from an empty database each row is the fold of its events and its row version is their number |
| FeatureLedger.OperationalFeaturesAreBacked | scripts/generate_brain_feature_catalog.py:284-317 | on every run from the first migration an operational feature has a release and a verification, and in the Brain ledger is implemented, verified and released with reference and manifest |
| FeatureLedger.SameExpectedVersionSucceedsOnce | scripts/generate_pet_feature_catalog.py:319-369 | of two transitions expecting the same row version only the first can succeed, whatever runs in between |
| FeatureLedger.RetriesAreHarmless | scripts/generate_pet_feature_catalog.py:319-369 | repeating an applied transition at any later time changes nothing and answers with the current row |
| FeatureLedger.OnlySuccessWrites | scripts/generate_pet_feature_catalog.py:319-369 | the tables change if and only if the transition is applied |
| FeatureLedger.UsedKeyIsRefusedExactlyWhen | scripts/generate_brain_feature_catalog.py:292-299 | in a sound ledger a used key of valid input is refused iff feature, target state, actor or reason differ, or the release id (PET) or one of the three statuses (Brain); otherwise it is answered with the current row |
| FeatureLedger.ReusedKeyIsRefusedExactlyWhen | scripts/generate_pet_feature_catalog.py:339-349 | at any time after an applied transition, another valid request with its key is refused iff its compared content differs, and writes nothing in any case |
| FeatureLedger.FieldsDroppedOnRepeat | scripts/generate_brain_feature_catalog.py:292-299 | two requests with one key compare equal iff they differ only in the fields that the ledger drops: expected version and both times (PET), also release id, implementation reference and manifest (Brain) |
| FeatureLedger.FirstSeedCommits | scripts/generate_pet_feature_catalog.py:234-317 | seeding an empty database with 500 distinct features commits |
| FeatureLedger.SeededStateMeans | scripts/generate_pet_feature_catalog.py:290-309 | the first migration puts exactly the features of the catalog into the planned state at version 1, by events of the catalog |
| FeatureLedger.OtherVersionsRaise | scripts/generate_pet_feature_catalog.py:294-300 | the PET migration raises over a row at another feature version |
| FeatureLedger.SeedingAgainChangesNothing | scripts/generate_pet_feature_catalog.py:234-317 | running the seed again in any sound state changes nothing, whether it commits or raises |
| FeatureLedger.SeedingAgainCommitsExactlyWhen | scripts/generate_pet_feature_catalog.py:234-317 | after any run from the first migration, running it again commits iff no transition was applied in the name of the catalog, and raises an integrity failure otherwise |
| FeatureLedger.SignedTransitionBlocksSeeding | scripts/generate_brain_feature_catalog.py:229-282 | a concrete transition after which the migration raises |
| FeatureLedger.RunActors | scripts/generate_pet_feature_catalog.py:310-315 | the events of an actor are those of the start plus the transitions applied in its name |
| FeatureLedger.Tables.TransitionFeature | scripts/generate_pet_feature_catalog.py:319-369 | the procedure, statement by statement, computes the specified outcome and tables |
| CatalogParser.ParsedLinesHaveTheShape | scripts/generate_pet_feature_catalog.py:40-63 | whatever the loop has accepted so far is consecutive headings with their titles, and the rows are those of their positions |
| CatalogParser.ShapeIsParsed | scripts/generate_pet_feature_catalog.py:40-63 | every sequence of lines of that shape is accepted by the loop |
| CatalogParser.HeadingsAreRead | scripts/generate_pet_feature_catalog.py:38-50 | one or two digits, a dot, white space and some text are read as a heading of that number |
| CatalogParser.OnlyHeadingsAreRead | scripts/generate_pet_feature_catalog.py:38-50 | and nothing else is |
| CatalogParser.BlankLinesAreSkipped | scripts/generate_pet_feature_catalog.py:40-42 | blank lines do not matter wherever they are, and all others are kept |
| CatalogParser.BodiesAreBetween | scripts/generate_pet_feature_catalog.py:35-36 | a text has a body iff it holds the first heading and the closing line |
| CatalogParser.AcceptsExactlyCatalogs | scripts/generate_pet_feature_catalog.py:33-73 | a body is accepted iff it is 20 consecutive headings with exactly 25 titles each; row k then has domain k/25+1 and item k%25+1 |
| CatalogParser.IdsAreUnique | scripts/generate_pet_feature_catalog.py:69-72 | the rows of a catalog have 500 distinct ids and domain/item pairs, so the last check never fires |
| CatalogParser.IdsMean | scripts/generate_pet_feature_catalog.py:58-58 | an id is PET, domain and item with two digits each |
| CatalogParser.ParseSlice | scripts/generate_pet_feature_catalog.py:38-73 | the loop with its early exits computes the value of the parser |
| CatalogParser.ParseSource | scripts/generate_pet_feature_catalog.py:33-73 | a text is accepted iff its body is a complete catalog, and then its 500 rows are the catalog's |
| CatalogPrinting.JoinedLinesAreReadBack | scripts/generate_pet_feature_catalog.py:33-36 | joining trimmed lines with any of the three line endings and reading them gives back the same lines |
| CatalogPrinting.PrintedCatalogsParse | scripts/generate_pet_feature_catalog.py:33-73 | printing any catalog and parsing it returns its titles with domain, item and source_order k+1, for each line ending |
| DashboardToken.EncodeIsUnpadded | ai_ops_center/auth.py:239-240 | the encoder prints only the alphabet, and the length of its output determines the stripped padding |
| DashboardToken.TestVectors | ai_ops_center/auth.py:239-240 | the encoder gives the test vectors of section 10 of RFC 4648 and the URL-safe symbols |
| DashboardToken.ScanInvertsPaddedEncode | ai_ops_center/auth.py:243-244 | the lenient decoder's state machine inverts the padded encoder on all byte strings |
| DashboardToken.DecodeInvertsEncode | ai_ops_center/auth.py:239-244 | every byte string survives encoding and decoding; the text holds no dot and no padding |
| DashboardToken.WellFormedTokens | ai_ops_center/auth.py:84-99 | a token of any claims and signature is judged by its MAC, the secret's length and its claims, and by nothing else |
| DashboardToken.AcceptedTokensAreSigned | ai_ops_center/auth.py:84-91 | any accepted text is v1, a payload and the MAC of that payload under a secret of 32 characters |
| DashboardToken.AcceptedClaimsMean | ai_ops_center/auth.py:92-97 | under a good signature exactly the operator's unexpired claims are accepted, unless they were issued over 60 seconds in the future |
| DashboardToken.IssuedTokensVerify | ai_ops_center/auth.py:68-99 | a token issued at t verifies at u iff the secret has 32 characters and gives the same MAC and t - 60 <= u < t + clamp(ttl, 300, 43200) |

## Left out

- HTTP routes, middleware, CLI, event streams, dashboards, subprocess, SSH and model calls: plumbing without state to prove.
- HMAC, SHA-256, JSON, uuid generation and regular expression engines: parameters with the properties named above.
- `redistribute_business_queue` (`ai_ops_center/factory.py:61-103`): it changes `agent_id` without `execution_machine_id` and so breaks routing coherence; it is not among the steps of a run.
- The routing records that a reroute and a failover merge into the metadata, `task_events`, titles, descriptions, `started_at`, `last_error` and `machine_status_current.active_task_id`: nothing modelled reads them.
- Metadata values are modelled after trimming and lower-casing, as enumerations; whitespace and case differences between the SQL and the Python conditions are not.
- Task ids are positions in the table: gaps in the serial and deletions do not occur in the model.
- Physical concurrency inside one transaction: row locks and the advisory lock are inputs (`locked`, `acquired`), and every transaction is one step.
- QueueHealth.Snapshot: takes all its counts from one set of queued rows, and QueueHealth.ReportHealth from one table, where the source runs several queries; hold reasons are values before they are formatted as text.
- QueueHealth.ReportHealth: the drain estimate is a `real` before it is rounded, and the throughput is the completed count divided by five.
- Queries.Query: ties may come in any order, as in PostgreSQL.
- The chain in `evaluate_stale_workers`, which calls failover once for each stale machine.
- Pins under failover: `evaluate_failover` moves pinned tasks too, so "pinned tasks stay" is stated for the steward only.
- LeaseProtocol.TerminalIsAbsorbing: the row trigger's other checks (migration 004) are implied by the guards of the updates and are not modelled; its check for a blank result is.
- Execution.EveryRunIsSafe: the in-process nonce set that replaces the database guard when none is configured is not modelled, and a receipt's posting through the API is the local `record_machine_receipt`.
- ReplayGuard.NoEnvelopeIsAcceptedTwice: stated for the in-memory guard; the PostgreSQL guard and its evidence archive are not modelled.
- FeatureLedger.LedgerIsTheFoldOfItsLog: definitions, versions, hashes and immutability triggers are not modelled, and arguments of a transition are not null except the optional ones.
- CatalogParser.ParseSource: digits of a heading are the ASCII ones, while the expression's `\d` also matches other Unicode digits; the default owner and the sensitivity of a domain, two lookups that no check reads, are left out.
- DashboardToken.IssuedTokensVerify: a payload that parses as JSON but is not an object raises in the source; here it counts as a token that does not parse.
- StewardQueue.StewardQueue: the health report that the call appends is `QueueHealth.ReportHealth` of a later transaction and is not part of this contract.
- Steward.Sweep: the reconciliation that opens the same transaction is in `StewardQueue.StewardQueue`.
- Worker.WorkOnTask: errors of the database itself (which also end in a failure report), the once flag, heartbeats to the status table, message handling and the listener events around a task are not modelled; a worker that dies is a list of polls that ends.
- Approval review, remote operations, connection freshness, benchmark roles, routing scores and seed backlogs: easy aggregates or unguarded updates.
