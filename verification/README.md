# Delivery, parking and scheduling of webhook-broker, in Dafny

webhook-broker delivers each message at least once, as one job per consumer of a channel. This
project models its delivery protocol, its scheduler and its smaller cores, and proves what they
promise.

- **Protocol** (`Types`, `Collections`, `Transactions`, `Protocol`, `Worker`): the `message`, `job`,
  `job_parking` and `dispatch_pause` tables as a value, every write as a guarded transaction that
  commits whole or not at all, and a state machine in which any node may take any step at any
  time. Copies of a job carry any retry count, a dispatching node's pause snapshot is any set of
  scopes, and a drain or a prune may act on a read of any age. Locks do not appear. On top: exactly one place per job (`Placement`), pause quiescence (`Quiescence`), late
  prune deletes (`PruneSafety`), the life of one job under every step (`JobLife`), the retry bound (`RetryBound`) and no stranding (`NoStranding`).
- **Objects** (`Repositories`, `Delivery`, `Dispatching`, `PauseRegistry`, `PruneService`,
  `Drainer`): the repositories and the loops around them, updating tables, job objects and
  snapshots in place, each proved to have the effect of the transactions above.
- **Scheduler** (`JobQueue`, `Lanes`, `LaneScheduler`, `Fairness`): the array heap refines a
  sorted list, lanes are specified over that list, the scheduler object holds a heap per lane and
  follows the specification, and selection, order and bypass are proved over whole call sequences.
- **Hand-off** (`Handoff`, `Shutdown`): dispatch loop, assigner, workers, wake slot and `Stop` as
  one interleaving state machine.
- **Smaller cores**: `Pagination`, `ConsumerCache`, `Signature`.

What the outside decides (clocks, consumer answers, archive writes, lock and load failures, the
MAC function) is a parameter, so every result is for all of its values.

Promises that the code keeps only under a condition, each with the exact condition and a failing
case:

- `Stop` misses a worker goroutine that has not started, because it polls a flag that the
  goroutine sets itself (`Shutdown.StopIsSafeIffEveryWorkerStarted`, `Shutdown.LateStartIsUnsafe`).
- A retry with an old copy can lower the stored count (`RetryBound.RetryRaisesIffCopyMatches`,
  `RetryBound.LateFailureLowersTheCount`).
- A page scan loses rows when ids and creation times disagree across a page end
  (`Pagination.ScanIsCompleteIff`, `Pagination.LostRow`).
- The consumer cache answers wrongly when a channel id is another one followed by a colon, after a
  delete with another id, and for an id that contains a colon (`ConsumerCache.CacheAgreesIffSeparable`,
  `ConsumerCache.DeleteKeepsCoherentIff`, `ConsumerCache.GetByIdAgreesIff`; failing runs in
  `ConsumerCache.CollidingRead`, `ConsumerCache.StaleAfterDelete` and
  `ConsumerCache.FoundByCompositeKey`).
- `PruneMessages` says it returns an error if any operation fails. A failed list query, a failed
  load of a channel, producer or consumer, and a failed archive write after another of its page
  whose delete succeeds are not reported; a run without messages to prune may be one whose query
  failed. The model follows the code (`PruneService.FailureIsReportedIff`; failing runs in
  `PruneService.ForgottenWrite`, `PruneService.FailedQuery` and `PruneService.FailedLoads`).
- A consumer that was never paused has no parked row, unless a dispatch had a snapshot that never
  was true (`Placement.NeverPausedNeverParked`, `Placement.FalseSnapshotParks`).
- The comment on the prune scan promises fewer than limit + 100 messages; with a limit of zero a
  full page of 100 is returned. The model follows the code (`Pagination.LimitIsKeptIff`,
  `Pagination.ZeroLimitReturnsAPage`).

`dafny verify dfyconfig.toml` checks the whole project.

## Model

| member | source | states |
|---|---|---|
| `Placement.ExactlyOnePlace` | storage/testutils.go:176-228 | In every reachable state, under any interleaving of nodes, any pause snapshots and old drain and prune reads, a (message, consumer) job that was created and not removed has exactly one row across `job` and `job_parking`; every other pair has none |
| `Placement.ParkingInvariants` | storage/testutils.go:185-211 | In every reachable state no id and no pair is in both tables, no consumer that nobody paused or took to be paused has a parked row, and no stored job has status PARKED |
| `Placement.NeverPausedNeverParked` | storage/testutils.go:185-211 | After any run whose dispatches have snapshots of scopes that were paused at some time, no consumer that was never paused has a parked row |
| `Placement.FalseSnapshotParks` | dispatcher/msgdispatcher.go:115-127 | With a snapshot that never was true a dispatch parks the job of a consumer that was never paused |
| `Placement.StepKeepsInv` | storage/rdbms.go:338-387 | Every step of the protocol, committed or rolled back, keeps the placement invariant |
| `Placement.ReachableInv` | storage/deliveryjobrepo.go:33-83 | The invariant holds in every state of every run |
| `Placement.RemovalIsDeliberate` | storage/deliveryjobrepo.go:492-520 | A job leaves both tables only by a dead-delete that asks for it when it is DEAD with its retries used up, or by a prune of its message when it is DELIVERED |
| `Placement.DeadDeleteIsExact` | storage/deliveryjobrepo.go:492-520 | A dead-delete takes exactly the jobs it asks for that are DEAD with their retries used up; every other row stays as it is |
| `Placement.DispatchKeepsInv` | storage/deliveryjobrepo.go:35-83 | A dispatch with any pause snapshot keeps the placement invariant: each new job is in exactly one table |
| `Placement.OnlyFirstDispatchCommits` | storage/messagerepo.go:138-154 | Once a dispatch of a message has committed, every dispatch of it rolls back, with any jobs, in every state of every run after it |
| `Placement.ReparkMovesIffQueuedAndPaused` | storage/jobparkingrepo.go:116-145 | In every reachable state a re-park moves the job if and only if it is QUEUED and its consumer is paused in the database |
| `Placement.DrainCommitsIffAllPresent` | storage/jobparkingrepo.go:181-229 | A drain with an old page commits if and only if all rows of the page are still parked, and then moves exactly those rows |
| `Placement.ExactDelete` | storage/jobparkingrepo.go:206-214 | The counted delete succeeds if and only if the page's rows are distinct and all present |
| `Placement.OverlappingDrainsExclude` | storage/jobparkingrepo.go:181-183 | Of two drains whose pages share a row, once one has committed the other rolls back after any further steps of any nodes, whatever times the two write |
| `Placement.CommitMovesItsPage` | storage/jobparkingrepo.go:190-229 | In a sound state a drain that commits moves exactly the page it read; otherwise it changes no row |
| `Placement.DrainUndoesRepark` | storage/jobparkingrepo.go:116-229 | In every reachable state, draining the row of a re-parked job gives the tables back as they were, but for the job's times and the next parking number |
| `Placement.DrainedRowIsTheJob` | storage/jobparkingrepo.go:75-90 | Parking a job and draining its row keeps every field but status and times |
| `JobLife.StepMoves` | storage/deliveryjobrepo.go:33-170 | The two tables implement one small machine per job: from every reachable state every step moves every job to the place and row that its own place, the pauses and the copies in the request decide, and leaves all others where they are |
| `JobLife.PlaceIsUnique` | storage/testutils.go:176-228 | In every reachable state a job has one place: a row of `job`, a row of `job_parking`, or none |
| `JobLife.DispatchCommitsIff` | storage/deliveryjobrepo.go:61-75 | A dispatch of new jobs commits if and only if its message is ACKNOWLEDGED, whatever the snapshot; then every job is stored or parked as the snapshot says |
| `JobLife.DispatchRefusesForeign` | storage/deliveryjobrepo.go:43-58 | A dispatch with a job of another message, or one marked PARKED, rolls back |
| `JobLife.MessageMoves` | storage/messagerepo.go:138-154 | A message becomes ACKNOWLEDGED by its creation, DISPATCHED by a dispatch that commits, and is gone after a prune; no other step changes it |
| `JobLife.PausesMove` | storage/dispatchpauserepo.go:30-67 | A pause request adds its scope, a resume request takes its scope away, and no step changes another scope |
| `JobLife.PauseCoversExactly` | storage/dispatchpauserepo.go:30-54 | After a pause request exactly the consumers its scope covers are paused beside those that were |
| `JobLife.ResumeUncoversExactly` | storage/dispatchpauserepo.go:57-67 | After a resume request a consumer is paused exactly when another scope covers it |
| `JobLife.PruneReadsMove` | storage/messagerepo.go:41-53 | A prune reads exactly the dispatched messages whose jobs are all DELIVERED and none parked |
| `JobLife.AttemptSteps` | dispatcher/worker.go:74-107 | An attempt moves its job only: to DELIVERED, DEAD or back with count and backoff when it was handed out; to the parking table when it waits for a paused consumer; nowhere otherwise |
| `JobLife.DrainedIsLeased` | parking/drainer.go:188-192 | A push job that a drain moved is due for a retry exactly when its lease is over; a pull job may be asked for at once |
| `JobLife.PutBackIsDue` | storage/deliveryjobrepo.go:142-155 | A job put back is due exactly when its backoff and the delay of the pass are over |
| `JobLife.HandedOutIsStale` | dispatcher/msgdispatcher.go:238-244 | A job handed out is recovered exactly when the stop timeout and the delay of the pass are over |
| `Quiescence.StepStartsNothing` | storage/deliveryjobrepo.go:109-127 | While a pause row covers a consumer, no step makes one of its jobs INFLIGHT |
| `Quiescence.PausedConsumerGoesQuiet` | controllers/dispatchpause.go:44-46 | Over any run that does not resume the scope, the consumer's INFLIGHT jobs only become fewer, so none stays none, whatever the node snapshots say |
| `Quiescence.PauseRequestQuiets` | controllers/dispatchpause.go:44-46 | From any state, after a pause request and any run that does not resume its scope, a consumer that the scope covers is paused and has no INFLIGHT job that it had not before |
| `PruneSafety.StepKeepsDelivered` | storage/messagerepo.go:41-53 | Dispatched with every job DELIVERED and nothing parked is stable under every step |
| `PruneSafety.LateDeleteIsSafe` | storage/messagerepo.go:237-340 | A delete based on a read any number of steps old removes only DELIVERED jobs and leaves no parked row without its message |
| `RetryBound.HandOutsAreBounded` | dispatcher/worker.go:92-103 | Under the recovery discipline, in every run a push job's stored count is its returns to QUEUED since its last dead requeue, its hand-outs are at most max-retry + 1 + recoveries, and DEAD implies count >= max-retry |
| `RetryBound.ActsDoTheirWork` | dispatcher/worker.go:74-107 | In every run an attempt begins exactly for a waiting push job with a copy of its count and no pause, and ends DELIVERED, DEAD, or back one count higher, with the counters to match |
| `RetryBound.ActIsStep` | dispatcher/worker.go:74-107 | Each act of the ledger is at most one step of the protocol |
| `RetryBound.ParkedCountIsKept` | storage/jobparkingrepo.go:23-27 | While a push job is parked its count is still the number of its returns to QUEUED |
| `RetryBound.ReturnRaisesByOne` | storage/deliveryjobrepo.go:142-155 | In every run a push attempt that returns to QUEUED raises the stored count by exactly one, and no other push action changes it |
| `RetryBound.MovingKeepsCount` | storage/jobparkingrepo.go:215-226 | In every reachable state parking and draining keep the count of every job |
| `RetryBound.RetryRaisesIffCopyMatches` | storage/deliveryjobrepo.go:142-155 | Putting an INFLIGHT job back raises its stored count by one if and only if the node's copy has the stored count |
| `RetryBound.LateFailureLowersTheCount` | dispatcher/msgdispatcher.go:232-254 | Without that match the count can fall: from every state where a job of a consumer that is not paused is due, retry and recovery passes alone, each step meeting its guard and in the order of time, reach a third attempt, and the failure of the first worker then lowers the stored count |
| `NoStranding.NoJobIsStranded` | dispatcher/msgdispatcher.go:201-254 | From every reachable state without pauses and for every time it starts at, a schedule fixed in advance of at most one drain per parked row, one recovery pass and max-retry + 1 retry passes, each over all jobs in any order of its own and in the order of one clock, settles every push job for all consumer answers: DELIVERED exactly when one of its remaining attempts is accepted, DEAD otherwise |
| `NoStranding.AttemptAllRows` | dispatcher/msgdispatcher.go:201-230 | A whole retry pass does to each due push job what one attempt does, in any order, and nothing to the others |
| `NoStranding.RecoverAllRows` | dispatcher/msgdispatcher.go:238-254 | A whole recovery pass puts each stale push job back one count higher, in any order, and does nothing to the others |
| `NoStranding.PassesSettle` | dispatcher/worker.go:89-103 | Retry passes beyond the retry limit settle every push job, and each ends DELIVERED if and only if one of its attempts is accepted |
| `NoStranding.RetryPassKeepsFates` | dispatcher/worker.go:74-107 | A retry pass leaves every push job settled, or one count higher and due again after the longest backoff, and does not change what the answers decide for it |
| `NoStranding.OwedJobsStand` | storage/testutils.go:213-228 | Every job that is owed has a status and a count in one of the tables |
| `Worker.BackoffsThenMultiples` | dispatcher/msgdispatcher.go:193-199 | The wait before attempt n is the n-th configured delay, and beyond the last one it grows by the last delay per attempt |
| `NoStranding.OneAttempt` | dispatcher/worker.go:74-107 | One attempt of a due job settles it or puts it back one count higher with its backoff, touches only its row, and does nothing to a job that is not due |
| `Repositories.InsertAll` | storage/deliveryjobrepo.go:41-50 | The row-by-row insert succeeds exactly when all rows fit the unique keys together, and gives the same table |
| `Repositories.InsertAllParked` | storage/jobparkingrepo.go:74-90 | The same for parked rows, which take the next numbers in order |
| `Repositories.Repository.InsertParkedRows` | storage/jobparkingrepo.go:74-90 | All rows are parked or none |
| `Repositories.Repository.DispatchMessageWithParking` | storage/deliveryjobrepo.go:33-83 | The tables become those of the dispatch transaction or stay as they were; parked job objects become PARKED exactly when it commits |
| `Repositories.Repository.AllDispatchable` | storage/deliveryjobrepo.go:43-58 | The check loops accept exactly the lists whose jobs all belong to the message and are not marked PARKED |
| `Repositories.Repository.MarkJobInflight` | storage/deliveryjobrepo.go:109-126 | Row and job object change exactly when the row is QUEUED with the copy's count and the consumer is not paused |
| `Repositories.Repository.UpdateJobStatus` | storage/deliveryjobrepo.go:95-140 | The shared status update for DELIVERED and DEAD changes row and job object exactly when the row has the expected status |
| `Repositories.Repository.MarkJobRetry` | storage/deliveryjobrepo.go:142-155 | The stored count becomes the copy's count plus one, in row and object |
| `Repositories.Repository.MarkDeadJobAsInflight` | storage/deliveryjobrepo.go:157-169 | A DEAD job of a consumer that is not paused is handed out again with the copy's count plus one |
| `Repositories.Repository.ReparkQueuedJob` | storage/jobparkingrepo.go:116-145 | Moves the row and marks the object exactly when the transaction does; an error is told apart from nothing to move |
| `Repositories.DeleteKeys` | storage/jobparkingrepo.go:206-214 | The delete by a list of keys removes exactly those rows and counts the ones that were there, even with repeated keys |
| `Repositories.Repository.MovePage` | storage/jobparkingrepo.go:206-241 | For any page, however old, the tables become those of the drain commit or are put back, and the new job objects mirror the inserted rows in page order |
| `Repositories.Repository.DrainPage` | storage/jobparkingrepo.go:184-241 | Read and commit of the oldest rows; the move stands when loading the jobs afterwards fails |
| `Repositories.Repository.GetDrainableConsumerIds` | storage/jobparkingrepo.go:147-179 | Returns exactly the consumers that have parked rows and are not paused, each once; none under a global pause |
| `Repositories.Repository.DeleteMessagesAndJobs` | storage/messagerepo.go:301-340 | Deleting in batches of a hundred equals deleting all the messages and their jobs at once |
| `Delivery.DeliverJob` | dispatcher/worker.go:74-107 | A worker's attempt on the repository objects, handed out at one time and recorded at another, leaves the tables of one attempt of the protocol for every answer, and from a reachable state moves every job as one attempt does: a refused hand-out parks a job that waits for a paused consumer and changes nothing else |
| `Dispatching.SplitPausedJobs` | dispatcher/msgdispatcher.go:115-127 | The loop splits the jobs by the node's snapshot into the two lists of the dispatch step, in order |
| `Dispatching.CommitDispatch` | dispatcher/msgdispatcher.go:62-67 | The split and the dispatch transaction commit together or change nothing, and the jobs left unparked come back in order |
| `Dispatching.Dispatch` | dispatcher/msgdispatcher.go:57-79 | When the dispatch commits, a job is queued exactly when no scope of the snapshot covers its consumer and the consumer is not a pull consumer, in the order of the jobs, and queueing leaves the committed tables as they are; otherwise nothing is queued |
| `Dispatching.DispatchWithCommitsIff` | storage/deliveryjobrepo.go:61-75 | From a reachable state the transaction of new jobs commits if and only if the message is ACKNOWLEDGED |
| `Dispatching.QueueJobs` | dispatcher/msgdispatcher.go:72-74 | Jobs that the snapshot does not show as paused are all queued but for those of pull consumers |
| `Dispatching.DispatchIsStep` | dispatcher/msgdispatcher.go:57-79 | For new jobs that transaction is the dispatch step of the protocol, whatever the snapshot |
| `Dispatching.ParkOrQueue` | dispatcher/msgdispatcher.go:138-148 | A job is not queued if and only if the snapshot shows a pause and the re-park moved it, so a stale snapshot never loses it |
| `Dispatching.RetryPass` | dispatcher/msgdispatcher.go:201-230 | The loop over job objects, repository and scheduler computes the retry pass: pull jobs without retries left go DEAD, held push jobs are skipped, the others are parked or queued, each under its lock |
| `Dispatching.RetriedIsHeldOrParked` | dispatcher/msgdispatcher.go:129-148 | A push job whose lock is free ends up with the scheduler or in the parking table: the pass loses none |
| `Dispatching.RetriedIsParkedIff` | dispatcher/msgdispatcher.go:139-148 | A push job that is not skipped leaves the job table exactly when both the snapshot and the database show its pause, and is queued otherwise |
| `Dispatching.SkippedIsLeftAlone` | dispatcher/msgdispatcher.go:214-226 | A job whose lock is taken, or a push job held with a copy as fresh, is left alone |
| `Dispatching.RetriedPullJob` | dispatcher/msgdispatcher.go:205-212 | A waiting pull job without retries left and with a free lock goes DEAD; every other pull job is left alone |
| `Dispatching.RetryRunQueues` | dispatcher/msgdispatcher.go:214-224 | With no pause in the snapshot and every lock free, the pass that skips held jobs leaves the scheduler as queueing every push job would, and the tables alone |
| `Dispatching.RetryStepIsStep` | dispatcher/msgdispatcher.go:205-226 | In the tables one job of the pass is nothing, a re-park or the burial of a waiting pull job |
| `Drainer.DrainRoundRobin` | parking/drainer.go:170-222 | Terminates for every sequence of outside answers; the tables and each event follow from the answers, turn by turn; page counts of consumers still in the run differ by at most one at every moment; each consumer's rows leave oldest first; the run is complete exactly when every consumer has left it, the lock is lost exactly when the last event is a page whose renewal failed, and a run that is not complete has lost the lock or meets an answer that cuts it |
| `Drainer.FailureIsAnswered` | parking/drainer.go:186-205 | On tidy tables a consumer is dropped with an error only if it, or the jobs it moved, could not be loaded, or the database failed: the commit of its page is never refused |
| `Drainer.ReachableIsTidy` | storage/testutils.go:185-211 | The tables of every reachable state are tidy: no id and no pair is parked twice, or both parked and in the job table |
| `Drainer.TidyCommits` | storage/jobparkingrepo.go:184-229 | On tidy tables every drain page that is read and committed at once commits |
| `Drainer.TurnIsSound` | parking/drainer.go:185-218 | Each turn keeps: rows gone so far are the oldest of each consumer, all are QUEUED jobs with their counts, other jobs unchanged, finished consumers empty |
| `Drainer.FinishedIsDrained` | parking/drainer.go:200-204 | A consumer that finished without an error and is not paused has had all its rows moved, in (createdAt, seq) order |
| `Drainer.RunOnce` | parking/drainer.go:137-168 | Without the lock nothing happens; a run is complete exactly when every consumer that could be drained has left it; after a complete run every consumer is empty but for those that are paused or had an error; on tidy tables, with the lock and no failing answer, it is complete and every consumer that is not paused has nothing parked |
| `Drainer.OldestRowsAreSorted` | storage/jobparkingrepo.go:35-39 | A page is in (createdAt, seq) order and every row it leaves behind comes later |
| `Drainer.ReadIsOldest` | storage/jobparkingrepo.go:33-38 | A drain reads nothing while the consumer is paused, and else its oldest rows in order, as many as the page takes |
| `Drainer.OldestRowsSplit` | storage/jobparkingrepo.go:35-39 | Pages taken one after another are the pages of one larger read |
| `JobQueue.PriorityQueue.Enqueue` | dispatcher/queue.go:53-59 | The array heap holds what the list sorted by (priority descending, seq ascending) holds after an insert |
| `JobQueue.PriorityQueue.Peek` | dispatcher/queue.go:61-69 | Peek is the head of that list, or nothing when it is empty |
| `JobQueue.PriorityQueue.Dequeue` | dispatcher/queue.go:71-77 | Dequeue takes the head of that list and leaves its tail |
| `JobQueue.PriorityQueue.Len` | dispatcher/queue.go:48-51 | The length is that of the list |
| `JobQueue.Push` | dispatcher/queue.go:28-59 | Pushing on the heap is inserting into the sorted list |
| `JobQueue.Pop` | dispatcher/queue.go:33-77 | Popping the heap takes the head of the sorted list and leaves its tail |
| `JobQueue.SiftUp` | dispatcher/queue.go:28-31 | Restores the heap after a push and keeps the multiset of jobs |
| `JobQueue.SiftDown` | dispatcher/queue.go:33-40 | Restores the heap after the root is swapped out and keeps the multiset of jobs |
| `JobQueue.SortedIsUnique` | dispatcher/queue.go:19-26 | Two sorted lists of the same jobs with distinct numbers are equal |
| `LaneScheduler.Scheduler.constructor` | dispatcher/lanes.go:49-57 | A new scheduler is empty and valid |
| `LaneScheduler.Scheduler.Enqueue` | dispatcher/lanes.go:76-101 | The object, whose lanes hold heaps, follows the specification on sorted lists: a held job is dropped, except that a fresher copy replaces a waiting one in place; the wake slot is filled exactly for a new job |
| `LaneScheduler.Scheduler.IsHeld` | dispatcher/lanes.go:103-112 | Whether the job is running, or waiting with a copy at least as fresh |
| `LaneScheduler.Scheduler.QueuedLen` | dispatcher/lanes.go:114-123 | Summing the lanes gives the number of waiting jobs |
| `LaneScheduler.Scheduler.TryNext` | dispatcher/lanes.go:138-179 | Compaction, choice and hand-out follow the specification and return the tracked copy of the chosen job |
| `LaneScheduler.Compact` | dispatcher/lanes.go:146-165 | The in-place compaction keeps the lanes that can run in order and finds the first of the highest priority |
| `LaneScheduler.Scheduler.Done` | dispatcher/lanes.go:195-214 | Frees the slot, drops an idle lane or marks it ready, and signals |
| `LaneScheduler.Scheduler.DiscardQueued` | dispatcher/lanes.go:216-234 | The nested loops, which empty each heap job by job, drop every waiting job and every lane without running jobs |
| `Lanes.EnqueueKeepsValid` | dispatcher/lanes.go:76-101 | Enqueue keeps the scheduler invariant |
| `Lanes.TryNextKeepsValid` | dispatcher/lanes.go:142-179 | TryNext keeps the scheduler invariant |
| `Lanes.DoneKeepsValid` | dispatcher/lanes.go:196-214 | Done of a running job keeps the scheduler invariant |
| `Lanes.DiscardKeepsValid` | dispatcher/lanes.go:219-234 | Discarding keeps the scheduler invariant |
| `Lanes.CompactionIsIdle` | dispatcher/lanes.go:146-165 | Under the invariant the compaction of the ready list never removes a lane |
| `Fairness.RunIsValid` | dispatcher/lanes.go:76-234 | After any legal sequence of calls: the ready list is duplicate-free and exactly the lanes that can run, tracked ids are the disjoint union of waiting and running jobs, each lane's count is its running jobs and within a limit that is not zero |
| `Fairness.NextIsOfHighestPriority` | dispatcher/lanes.go:138-179 | After any legal sequence, tryNext hands out a job of the highest priority among all waiting jobs in lanes with room, and nothing exactly when no lane can run |
| `Fairness.EqualPriorityLeavesInOrder` | dispatcher/queue.go:19-26 | Over whole runs, equal-priority jobs of a lane leave in the order they entered, even when waiting copies are refreshed |
| `Fairness.BypassIsBounded` | dispatcher/lanes.go:125-179 | A lane that nothing runnable outranks is served within (lanes ahead + 1) calls of tryNext, whatever enqueue and done calls come between |
| `Fairness.TurnComesCloser` | dispatcher/lanes.go:125-179 | Each tryNext serves that lane or leaves exactly one lane fewer ahead of it |
| `Fairness.HeldIffEnqueueIsIdle` | dispatcher/lanes.go:76-112 | isHeld holds if and only if enqueue would change nothing |
| `Fairness.FreshestCopyIsHeld` | dispatcher/lanes.go:76-101 | After an enqueue a waiting job has the copy with the highest count and its old place in the queue, a running one its own copy, a new one this copy |
| `Fairness.EnqueuedIsHeld` | dispatcher/lanes.go:76-112 | A job is held right after any enqueue of it |
| `Fairness.WaitingCountNeverFalls` | dispatcher/lanes.go:76-101 | The retry count of a waiting copy never falls |
| `Fairness.SkippingIsARefinement` | dispatcher/msgdispatcher.go:214-224 | A pass that skips held jobs leaves the same scheduler as one that does not |
| `Fairness.PassIsIdempotent` | dispatcher/msgdispatcher.go:201-230 | Repeating a pass over the same copies changes nothing |
| `Handoff.StepKeepsInv` | dispatcher/msgdispatcher.go:404-421 | Every atomic action of the dispatch loop, assigner, workers and shutdown keeps the hand-off invariant: each running job is in exactly one hand, channel or worker, and each ticket is released at most once |
| `Handoff.RunKeepsInv` | dispatcher/worker.go:109-131 | So does every interleaving |
| `Handoff.NoLostWakeUp` | dispatcher/lanes.go:181-193 | In every reachable state where the assigner waits and a lane can run, the wake slot is full or a signal is on its way, and three more steps at most bring the assigner a job |
| `Handoff.SendsNeverBlock` | dispatcher/msgdispatcher.go:406-421 | In every reachable state the channel the assigner sends on is empty, and the pool has room for a registering worker |
| `Shutdown.StopReleasesEverything` | dispatcher/msgdispatcher.go:339-402 | If every worker goroutine was up when Stop was called and Stop returned in time, every job handed out was released exactly once and no job or lane is held |
| `Shutdown.StopIsSafeIffEveryWorkerStarted` | dispatcher/msgdispatcher.go:368-377 | In a reachable state before Stop, all runs of Stop that return in time release everything if and only if every worker goroutine is up |
| `Shutdown.StopCanReturn` | dispatcher/msgdispatcher.go:339-402 | From every reachable state before Stop some run of Stop returns in time, so the safety is not an empty one |
| `Shutdown.LateStartIsUnsafe` | dispatcher/worker.go:111-113 | With a worker not yet up, some run of Stop returns while that worker still delivers a job |
| `Pagination.ScanNeverRepeats` | storage/rdbms.go:393-420 | For any data and page size the scan returns rows of the table, in table order, none twice |
| `Pagination.ScanIsCompleteIff` | storage/rdbms.go:393-420 | It returns every row if and only if, at the end of each full page, all later rows have smaller ids |
| `Pagination.EveryScanIsCompleteIff` | storage/data/common.go:112-128 | Every page size gives a complete scan if and only if ids fall along the creation order |
| `Pagination.LostRow` | storage/rdbms.go:403-411 | At every page size, a row beyond the first page with a larger id than the last row of that page is never returned |
| `Pagination.ListAll` | storage/deliveryjobrepo.go:235-271 | The loop of the job scan terminates with exactly the scan |
| `Pagination.ListUpTo` | storage/messagerepo.go:237-280 | For every pattern of failing queries the prune scan returns the pages read before the first query that fails, and else the shortest prefix of the scan made of whole pages, at least one, that has enough rows, or the whole scan |
| `Pagination.WholePagesIsLeast` | storage/messagerepo.go:244-262 | That number of whole pages is at least one, covers the limit, and is the least that does |
| `Pagination.LimitIsKeptIff` | storage/messagerepo.go:235-237 | Fewer than limit + page size rows come back if and only if the limit is positive or the table is that small |
| `Pagination.ZeroLimitReturnsAPage` | storage/messagerepo.go:244-262 | With a limit of zero and a table of at least one page, exactly a page comes back |
| `ConsumerCache.CacheAgreesIffSeparable` | storage/consumerrepo.go:150-204 | All proper call sequences answer reads as the table would if and only if no channel is another channel followed by a colon |
| `ConsumerCache.CollidingRead` | storage/consumerrepo.go:150-165 | With such a pair of channels the run that stores a valid consumer of the longer one, reads it and reads the pair of the shorter one with the same key is proper and disagrees with the table |
| `ConsumerCache.StaleAfterDelete` | storage/consumerrepo.go:196-204 | A valid consumer stored, read by id and deleted with another id is still found by its id |
| `ConsumerCache.FoundByCompositeKey` | storage/consumerrepo.go:168-183 | A valid consumer stored and read is then found by its composite key passed as an id |
| `ConsumerCache.StoredIsTheRow` | storage/consumerrepo.go:20-61 | A valid consumer of a known channel is stored as the row of its key, under the id it had before if there was one, and no other row changes; a refused one changes nothing |
| `ConsumerCache.StoreAcceptsIff` | storage/consumerrepo.go:20-61 | A store is accepted if and only if the channel is known and the consumer equals its row or is valid, a new one with a row id of its own; the row takes its fields |
| `ConsumerCache.DeleteTakesTheRow` | storage/consumerrepo.go:196-204 | A delete takes the row of its key and no other |
| `ConsumerCache.RememberedIsFound` | storage/memcache.go:39-63 | An entry is found until its time is over, and always without a time limit |
| `ConsumerCache.ReadIsRemembered` | storage/consumerrepo.go:150-165 | A read that finds a row leaves it in the cache |
| `ConsumerCache.CleanupIsInvisible` | storage/memcache.go:73-94 | A cleanup changes no later answer of the cache |
| `ConsumerCache.KeysAreUniqueIff` | storage/consumerrepo.go:152-152 | Composite keys are unique under the same condition |
| `ConsumerCache.DeleteKeepsCoherentIff` | storage/consumerrepo.go:196-204 | A delete keeps the cache coherent if and only if it carries the row's id or that id is not cached |
| `ConsumerCache.GetByIdAgreesIff` | storage/consumerrepo.go:168-183 | A read by id agrees with the table if and only if the id has no colon or is not cached |
| `ConsumerCache.OpIsSound` | storage/consumerrepo.go:150-204 | Every proper call keeps cache and table coherent |
| `ConsumerCache.MemoryCache.Get` | storage/memcache.go:39-52 | A hit needs an entry that has not expired, or no time limit |
| `ConsumerCache.MemoryCache.Set` | storage/memcache.go:54-63 | Stores the value with its expiration |
| `ConsumerCache.MemoryCache.Delete` | storage/memcache.go:65-71 | Removes the entry and nothing else |
| `ConsumerCache.MemoryCache.Cleanup` | storage/memcache.go:73-94 | The loop removes exactly the expired entries |
| `ConsumerCache.CachedConsumerRepository.Get` | storage/consumerrepo.go:150-165 | The object serves the read of the specification |
| `ConsumerCache.CachedConsumerRepository.GetById` | storage/consumerrepo.go:168-183 | The object serves the read by id of the specification |
| `ConsumerCache.CachedConsumerRepository.Store` | storage/consumerrepo.go:20-61 | Update keeps the row's id, insert checks it, and both keys of the stored row are invalidated |
| `ConsumerCache.CachedConsumerRepository.Delete` | storage/consumerrepo.go:196-204 | Deletes by channel and consumer id and invalidates the keys of the object passed in |
| `Signature.ParseFormat` | parking/handoff.go:188-192 | Every 64-bit number is parsed back from its decimal text |
| `Signature.ParseIntIff` | controllers/hmac_middleware.go:103-107 | A number is read exactly from an optional sign and digits whose value fits 64 bits |
| `Signature.TrimTakesSpaces` | controllers/hmac_middleware.go:101-102 | Trimming takes the spaces around a part and nothing else |
| `Signature.ParseSigned` | controllers/hmac_middleware.go:94-119 | Every 64-bit timestamp and hex digest is recovered from the printed header |
| `Signature.ParseHeaderIff` | controllers/hmac_middleware.go:94-119 | A header is accepted with a timestamp and signature if and only if it is two comma-separated parts, one of each kind, in either order, with spaces around them |
| `Signature.ParseSignatureHeader` | controllers/hmac_middleware.go:95-119 | The loop with its found flags computes that parser |
| `Signature.SignedIsAuthentic` | controllers/hmac_middleware.go:78-88 | A hand-off signed with the shared secret passes for every MAC function unless its timestamp is stale |
| `Signature.AuthenticIff` | controllers/hmac_middleware.go:50-88 | A request is let through if and only if its header is accepted with a time within tolerance and a signature that is the MAC of that time and this body |
| `Signature.RefusedIff` | controllers/hmac_middleware.go:50-68 | It is refused as missing, malformed or stale exactly when there is no header, none that is accepted, or one with a time out of tolerance |
| `Signature.SignatureIsForItsBody` | controllers/hmac_middleware.go:78-88 | A header signed for one body passes for another exactly when the two MACs are equal and the time is within tolerance |
| `Signature.PayloadIsInjective` | parking/handoff.go:186-192 | The signed text determines both the timestamp and the body |
| `Signature.DecodeEncodeHex` | parking/handoff.go:191-191 | Hex of section 8 of RFC 4648 is reversible |
| `Signature.EncodeDecodeHex` | parking/handoff.go:191-191 | Only the encoding of the bytes decodes to them |
| `PruneService.PruneMessages` | prune/service.go:123-195 | Deletes exactly the returned set, all of it archived with its jobs as they were and completely delivered; runs up to the first round that is not clean, and its ending, error, tables and archive are those of that round: an error exactly for a page with a failed job load, a failed first write or a failed delete; with no failing answer nothing is left to load |
| `PruneService.PruneRound` | prune/service.go:157-193 | A round archives the page up to the first failed write and deletes exactly what it wrote |
| `PruneService.FailureIsReportedIff` | prune/service.go:128-195 | Over whole runs, an error is returned if and only if some operation fails, exactly when the last round reports or no round has a silent failure |
| `PruneService.FailureIsReportedOrSilent` | prune/service.go:147-194 | The failures of a round are those reported and the silent ones: a list query, the load of a channel, a producer or a consumer, and a write after another of its page when the delete works |
| `PruneService.CleanIffNothingStops` | prune/service.go:147-194 | Another round follows exactly when messages are listed, nothing is reported and no write is forgotten |
| `PruneService.NoFailureLeavesNothing` | prune/service.go:147-156 | Without a failing answer the run goes on until there is nothing to load |
| `PruneService.ForgottenWriteIsSilent` | prune/service.go:171-193 | A write that fails after another of its page, when the delete works, gives no error, and its message stays in the table |
| `PruneService.ForgottenWrite` | prune/service.go:171-193 | A run with two delivered messages where that happens: the second is neither written nor deleted and there is no error |
| `PruneService.FailedQuery` | storage/messagerepo.go:274-277 | A run with two delivered messages whose list query fails: nothing is archived or deleted and there is no error |
| `PruneService.FailedLoads` | storage/deliveryjobrepo.go:327-335 | A run where the consumer of a job, or the channel or producer of its message, can not be loaded: the record is written without it, message and job are deleted and there is no error |
| `PruneService.ArchivePage` | prune/service.go:168-182 | Writes in order up to the first failure, each message with all its jobs |
| `PauseRegistry.NewPauseSnapshot` | dispatcher/pause.go:47-57 | The snapshot shows, for every scope, the last pause of that scope in the list |
| `PauseRegistry.All` | dispatcher/pause.go:59-68 | Listing a snapshot and rebuilding it gives the same pauses |
| `PauseRegistry.Registry.Apply` | dispatcher/pause.go:120-139 | Adds or replaces the pause of one scope and keeps the others |
| `PauseRegistry.Registry.Remove` | dispatcher/pause.go:141-153 | Forgets one scope and keeps the others |
| `PauseRegistry.Registry.Refresh` | dispatcher/pause.go:155-166 | Takes over the rows read, or keeps the snapshot when the read failed |
| `PauseRegistry.Registry.IsEffectivelyPaused` | dispatcher/pause.go:105-113 | Agrees with the coverage test of the dispatch step |

## Left out

- HTTP controllers, routing, JSON, metrics, logging, configuration and the command line: request plumbing with no hard property.
- The HTTP call to a consumer, the hand-off POST and its retries: each is a free answer of the outside.
- The bounded hand-off channel of the drainer (`Submit`, `Stop`): only its saturation appears, as a reason to cut a run short.
- SQL text, error normalisation and LIKE patterns: tables are maps and an id matches by equality.
- Locks: no result depends on them.
- Consumer deletion, change of a consumer's type and of the retry limit: both stay fixed in a run.
- Message creation beyond a new row, and the listing of undispatched messages: easy members.
- Previous-page links: nothing is claimed of them.
- The growing time bound of the job scan: a scan is over a table and a filter that do not change.
- The nil checks on jobs and messages and the field checks of `IsInValidState` other than the status and the message: a job object always has its message and consumer.
- The order in which the loops over Go maps visit their keys: any order is allowed.
- The mutexes of the scheduler, the heap and the cache: each call is one atomic step, and the signal after the unlock is its own step in `Handoff`.
- 64-bit wrap-around of the scheduler's sequence number: numbers are unbounded.
- The lane key joins channel and consumer with a slash; the model keeps them as a pair, so two consumers whose joined keys agree are not merged.
- Aliasing of cached consumers: the cache holds values, so a caller that changes a consumer it was handed is not modelled.
- Floating-point comparison of the signature's age: the staleness test is a parameter. The switch and the exempt paths of the middleware are left out.
- The recovery loop itself: its effect is the retry step of the protocol.
- DLQ summary counts, archive rotation and cloud buckets: estimates and blob I/O.
- LaneScheduler.Scheduler.Done: requires a job that is running, since the workers call it once per job taken.
- RetryBound.HandOutsAreBounded: assumes that recovery acts only on attempts whose worker is gone, with a copy of the stored count, because without it the count can fall, as the two lemmas after it show; and that no request marks a push job, although the job endpoint, which serves pull consumers, compares the consumer id without the channel.
- Fairness.EqualPriorityLeavesInOrder: is about runs before the shutdown discards waiting jobs.
- NoStranding.NoJobIsStranded: is about push jobs; a pull job moves when its consumer asks, or is buried by the retry pass. An attempt of the schedule is handed out and answered at the same time.
- Dispatching.RetryPass: a queued job is in the scheduler at once; the dispatch channel between them is not modelled.
- PruneService.PruneMessages: starts with pruning enabled and the archive writers opened; otherwise the original returns at once.
- PruneService.FailureIsReportedIff: a failed rotation in the background and a failed close of the archive writers, which are only logged, are outside the claim.
- ConsumerCache.StoredIsTheRow: of a consumer's validity the callback URL is tested for a scheme only, and its channel for existence only.
