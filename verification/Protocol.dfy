/**
  The delivery protocol as a state machine over the shared database. Each step is one
  committed transaction, or the read that starts a drain or prune transaction; any node may
  take any step at any time, so a run is an arbitrary sequence of steps. A step whose
  transaction rolls back changes nothing. Locks do not appear: nothing here depends on them.
 */
module Protocol {
  import opened Types
  import opened Transactions

  datatype Pair = Pair(message: MessageId, consumer: ConsumerId)

  /**
    `drains` holds the pages read by drain transactions that have not committed, and
    `pruneReads` the messages some prune run has read as completely delivered: both may be
    out of date. `created`, `removed`, `usedMessages` and `believedPaused` are history, the last
    of the scopes that were paused or that a dispatching node took to be paused.
   */
  datatype System = System(
    db: Db,
    drains: map<nat, seq<ParkedEntry>>,
    pruneReads: set<MessageId>,
    created: map<JobId, Pair>,
    removed: set<JobId>,
    usedMessages: set<MessageId>,
    believedPaused: set<Scope>)

  const Init := System(Db(map[], map[], map[], {}, 0), map[], {}, map[], {}, {}, {})

  /**
    The `copyRetries` and `timeout` arguments come from a node's in-memory copy of the job,
    which may be arbitrarily out of date. `snapshot` is what the dispatching node believes is
    paused: any set of scopes.
   */
  datatype Step =
    | CreateMessage(message: MessageId, now: Time)
    | Dispatch(message: MessageId, entries: seq<JobEntry>, snapshot: set<Scope>, now: Time)
    | HandOut(id: JobId, copyRetries: nat, timeout: nat, now: Time)
    | Deliver(id: JobId, timeout: nat, now: Time)
    | Bury(id: JobId, timeout: nat, now: Time)
    | BuryQueued(id: JobId, timeout: nat, now: Time)
    | Retry(id: JobId, copyRetries: nat, delta: nat, now: Time)
    | HandOutDead(id: JobId, copyRetries: nat, timeout: nat, now: Time)
    | RequeueDead(id: JobId, now: Time)
    | RequeueAllDead(consumer: ConsumerId, now: Time)
    | DeleteDead(id: JobId)
    | DeleteAllDead(consumer: ConsumerId)
    | Repark(id: JobId, now: Time)
    | BeginDrain(tx: nat, consumer: ConsumerId, pageSize: int)
    | CommitDrain(tx: nat, earliest: Time, now: Time)
    | PauseScope(scope: Scope)
    | ResumeScope(scope: Scope)
    | PruneRead(message: MessageId)
    | PruneDelete(messages: set<MessageId>)

  predicate Covered(snapshot: set<Scope>, consumer: ConsumerId) {
    Global in snapshot || Consumer(consumer) in snapshot
  }

  /** The jobs whose consumer is (`paused`) or is not (`!paused`) covered by the snapshot, in order. */
  function Split(snapshot: set<Scope>, entries: seq<JobEntry>, paused: bool): (r: seq<JobEntry>)
    ensures forall e :: e in r <==> e in entries && Covered(snapshot, e.row.consumer) == paused
  {
    if entries == [] then [] else
    var rest := Split(snapshot, entries[1..], paused);
    if Covered(snapshot, entries[0].row.consumer) == paused then [entries[0]] + rest else rest
  }

  /** What creating one new job per consumer gives: fresh distinct ids, distinct consumers, QUEUED, no retries. */
  predicate FreshJobs(s: System, message: MessageId, entries: seq<JobEntry>) {
    && (forall i | 0 <= i < |entries| ::
          && entries[i].id !in s.created && entries[i].row.message == message
          && entries[i].row.status == Queued && entries[i].row.retries == 0)
    && forall i, j | 0 <= i < j < |entries| ::
         entries[i].id != entries[j].id && entries[i].row.consumer != entries[j].row.consumer
  }

  function PairOf(row: JobRow): Pair {
    Pair(row.message, row.consumer)
  }

  function PairsById(entries: seq<JobEntry>): (pairs: map<JobId, Pair>)
    requires DistinctIds(entries)
    ensures forall e | e in entries :: e.id in pairs && pairs[e.id] == PairOf(e.row)
    ensures forall id | id in pairs :: exists e :: e in entries && e.id == id
  {
    if entries == [] then map[] else
    var init, last := entries[..|entries| - 1], entries[|entries| - 1];
    assert entries == init + [last];
    PairsById(init)[last.id := PairOf(last.row)]
  }

  function WithDb(s: System, result: Option<Db>): System {
    match result
    case None => s
    case Some(db) => s.(db := db)
  }

  function DoDispatch(s: System, message: MessageId, entries: seq<JobEntry>, snapshot: set<Scope>, now: Time): System {
    if !FreshJobs(s, message, entries) then s else
    match DispatchMessageWithParking(s.db, message, Split(snapshot, entries, false), Split(snapshot, entries, true), now)
    case None => s
    case Some(db) =>
      s.(db := db, created := s.created + PairsById(entries), believedPaused := s.believedPaused + snapshot)
  }

  function DoCommit(s: System, tx: nat, earliest: Time, now: Time): System {
    if tx !in s.drains then s else
    WithDb(s.(drains := s.drains - {tx}), CommitDrainPage(s.db, s.drains[tx], earliest, now))
  }

  function Do(cfg: Config, s: System, step: Step): System {
    match step
    case CreateMessage(message, now) =>
      if message in s.usedMessages then s else
      s.(db := s.db.(messages := s.db.messages[message := MessageRow(Acknowledged, now, now)]), usedMessages := s.usedMessages + {message})
    case Dispatch(message, entries, snapshot, now) => DoDispatch(s, message, entries, snapshot, now)
    case HandOut(id, copyRetries, timeout, now) => WithDb(s, MarkJobInflight(s.db, id, copyRetries, timeout, now))
    case Deliver(id, timeout, now) => WithDb(s, MarkJobDelivered(s.db, id, timeout, now))
    case Bury(id, timeout, now) => WithDb(s, MarkJobDead(s.db, id, timeout, now))
    case BuryQueued(id, timeout, now) => WithDb(s, MarkQueuedJobAsDead(s.db, id, timeout, now))
    case Retry(id, copyRetries, delta, now) => WithDb(s, MarkJobRetry(s.db, id, copyRetries, delta, now))
    case HandOutDead(id, copyRetries, timeout, now) => WithDb(s, MarkDeadJobAsInflight(s.db, id, copyRetries, timeout, now))
    case RequeueDead(id, now) => WithDb(s, RequeueDeadJob(s.db, id, now))
    case RequeueAllDead(consumer, now) => s.(db := RequeueDeadJobsForConsumer(s.db, consumer, now))
    case DeleteDead(id) =>
      s.(db := DeleteDeadJob(s.db, id, cfg.maxRetry), removed := s.removed + (if Exhausted(s.db, id, cfg.maxRetry) then {id} else {}))
    case DeleteAllDead(consumer) =>
      s.(db := DeleteDeadJobsForConsumer(s.db, consumer, cfg.maxRetry), removed := s.removed + ExhaustedJobsOf(s.db, consumer, cfg.maxRetry))
    case Repark(id, now) => WithDb(s, ReparkQueuedJob(s.db, id, now))
    case BeginDrain(tx, consumer, pageSize) => s.(drains := s.drains[tx := ReadDrainPage(s.db, consumer, pageSize)])
    case CommitDrain(tx, earliest, now) => DoCommit(s, tx, earliest, now)
    case PauseScope(scope) => s.(db := Pause(s.db, scope), believedPaused := s.believedPaused + {scope})
    case ResumeScope(scope) => s.(db := Resume(s.db, scope))
    case PruneRead(message) => if CompletelyDelivered(s.db, message) then s.(pruneReads := s.pruneReads + {message}) else s
    case PruneDelete(messages) =>
      if !(messages <= s.pruneReads) then s else
      s.(db := DeleteMessagesAndJobs(s.db, messages), removed := s.removed + JobsOf(s.db, messages))
  }

  function Exec(cfg: Config, s: System, steps: seq<Step>): System
    decreases |steps|
  {
    if steps == [] then s else Exec(cfg, Do(cfg, s, steps[0]), steps[1..])
  }

  ghost predicate Reachable(cfg: Config, s: System) {
    exists steps :: Exec(cfg, Init, steps) == s
  }

  lemma {:induction false} ExecConcat(cfg: Config, s: System, a: seq<Step>, b: seq<Step>)
    ensures Exec(cfg, s, a + b) == Exec(cfg, Exec(cfg, s, a), b)
    decreases |a|
  {
    if a == [] {
      assert a + b == b;
    } else {
      assert (a + b)[0] == a[0] && (a + b)[1..] == a[1..] + b;
      ExecConcat(cfg, Do(cfg, s, a[0]), a[1..], b);
    }
  }

  lemma ExecOne(cfg: Config, s: System, a: Step)
    ensures Exec(cfg, s, [a]) == Do(cfg, s, a)
  {
  }

  lemma ExecTwo(cfg: Config, s: System, a: Step, b: Step)
    ensures Exec(cfg, s, [a, b]) == Do(cfg, Do(cfg, s, a), b)
  {
    assert [a, b][1..] == [b];
    ExecOne(cfg, Do(cfg, s, a), b);
  }

  lemma ReachableStep(cfg: Config, s: System, step: Step)
    requires Reachable(cfg, s)
    ensures Reachable(cfg, Do(cfg, s, step))
  {
    var steps :| Exec(cfg, Init, steps) == s;
    ExecConcat(cfg, Init, steps, [step]);
    assert Exec(cfg, s, [step]) == Do(cfg, s, step);
  }

  lemma {:induction false} ReachableRun(cfg: Config, s: System, steps: seq<Step>)
    requires Reachable(cfg, s)
    ensures Reachable(cfg, Exec(cfg, s, steps))
    decreases |steps|
  {
    if steps != [] {
      ReachableStep(cfg, s, steps[0]);
      ReachableRun(cfg, Do(cfg, s, steps[0]), steps[1..]);
    }
  }
}
