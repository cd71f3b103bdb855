/**
  Every write of the delivery protocol as a function on the database value. A transaction
  either commits (`Some`) or rolls back and changes nothing (`None`); a guarded update
  commits only when it hits the exact number of rows it expects.
 */
module Transactions {
  import opened Types

  /** The pause predicate that the hand-out, re-park and drain statements evaluate in the database. */
  predicate Paused(db: Db, consumer: ConsumerId) {
    Global in db.pauses || Consumer(consumer) in db.pauses
  }

  predicate HasStatus(db: Db, id: JobId, status: JobStatus) {
    id in db.jobs && db.jobs[id].status == status
  }

  function WithJob(db: Db, id: JobId, row: JobRow): Db {
    db.(jobs := db.jobs[id := row])
  }

  // ---------- status updates of one job row ----------

  function MarkJobInflight(db: Db, id: JobId, copyRetries: nat, timeout: nat, now: Time): Option<Db> {
    if HasStatus(db, id, Queued) && db.jobs[id].retries == copyRetries && !Paused(db, db.jobs[id].consumer) then
      Some(WithJob(db, id, db.jobs[id].(status := Inflight, incrementalTimeout := timeout, statusChangedAt := now, updatedAt := now)))
    else
      None
  }

  function UpdateStatus(db: Db, id: JobId, from: JobStatus, to: JobStatus, timeout: nat, now: Time): Option<Db> {
    if HasStatus(db, id, from) then
      Some(WithJob(db, id, db.jobs[id].(status := to, incrementalTimeout := timeout, statusChangedAt := now, updatedAt := now)))
    else
      None
  }

  function MarkJobDelivered(db: Db, id: JobId, timeout: nat, now: Time): Option<Db> {
    UpdateStatus(db, id, Inflight, Delivered, timeout, now)
  }

  function MarkJobDead(db: Db, id: JobId, timeout: nat, now: Time): Option<Db> {
    UpdateStatus(db, id, Inflight, Dead, timeout, now)
  }

  function MarkQueuedJobAsDead(db: Db, id: JobId, timeout: nat, now: Time): Option<Db> {
    UpdateStatus(db, id, Queued, Dead, timeout, now)
  }

  /** The stored count becomes the copy's count plus one, whatever was stored. */
  function MarkJobRetry(db: Db, id: JobId, copyRetries: nat, delta: nat, now: Time): Option<Db> {
    if HasStatus(db, id, Inflight) then
      Some(WithJob(db, id, db.jobs[id].(status := Queued, statusChangedAt := now, updatedAt := now,
                                        earliestNextAttemptAt := now + delta, retries := copyRetries + 1)))
    else
      None
  }

  function MarkDeadJobAsInflight(db: Db, id: JobId, copyRetries: nat, timeout: nat, now: Time): Option<Db> {
    if HasStatus(db, id, Dead) && !Paused(db, db.jobs[id].consumer) then
      Some(WithJob(db, id, db.jobs[id].(status := Inflight, incrementalTimeout := timeout, statusChangedAt := now, updatedAt := now,
                                        earliestNextAttemptAt := now, retries := copyRetries + 1)))
    else
      None
  }

  function RequeuedRow(row: JobRow, now: Time): JobRow {
    row.(status := Queued, statusChangedAt := now, updatedAt := now, retries := 0)
  }

  function RequeueDeadJob(db: Db, id: JobId, now: Time): Option<Db> {
    if HasStatus(db, id, Dead) then Some(WithJob(db, id, RequeuedRow(db.jobs[id], now))) else None
  }

  function RequeueDeadJobsForConsumer(db: Db, consumer: ConsumerId, now: Time): Db {
    db.(jobs := map id | id in db.jobs ::
      if db.jobs[id].consumer == consumer && db.jobs[id].status == Dead then RequeuedRow(db.jobs[id], now) else db.jobs[id])
  }

  predicate Exhausted(db: Db, id: JobId, maxRetry: nat) {
    HasStatus(db, id, Dead) && db.jobs[id].retries >= maxRetry
  }

  function DeleteDeadJob(db: Db, id: JobId, maxRetry: nat): Db {
    if Exhausted(db, id, maxRetry) then db.(jobs := db.jobs - {id}) else db
  }

  function ExhaustedJobsOf(db: Db, consumer: ConsumerId, maxRetry: nat): set<JobId> {
    set id | id in db.jobs && db.jobs[id].consumer == consumer && Exhausted(db, id, maxRetry)
  }

  function DeleteDeadJobsForConsumer(db: Db, consumer: ConsumerId, maxRetry: nat): Db {
    db.(jobs := db.jobs - ExhaustedJobsOf(db, consumer, maxRetry))
  }

  // ---------- multi-row inserts, with the unique keys of both tables ----------

  predicate SamePair(m0: MessageId, c0: ConsumerId, m1: MessageId, c1: ConsumerId) {
    m0 == m1 && c0 == c1
  }

  predicate CanInsertJobs(db: Db, entries: seq<JobEntry>) {
    && (forall i | 0 <= i < |entries| ::
          && entries[i].id !in db.jobs
          && forall id | id in db.jobs ::
               !SamePair(db.jobs[id].message, db.jobs[id].consumer, entries[i].row.message, entries[i].row.consumer))
    && forall i, j | 0 <= i < j < |entries| ::
         && entries[i].id != entries[j].id
         && !SamePair(entries[i].row.message, entries[i].row.consumer, entries[j].row.message, entries[j].row.consumer)
  }

  predicate DistinctIds(entries: seq<JobEntry>) {
    forall i, j | 0 <= i < j < |entries| :: entries[i].id != entries[j].id
  }

  function ById(entries: seq<JobEntry>): (rows: map<JobId, JobRow>)
    requires DistinctIds(entries)
    ensures forall i | 0 <= i < |entries| :: entries[i].id in rows && rows[entries[i].id] == entries[i].row
    ensures forall id | id in rows :: exists i :: 0 <= i < |entries| && entries[i].id == id
  {
    if entries == [] then map[] else
    var last := entries[|entries| - 1];
    ById(entries[..|entries| - 1])[last.id := last.row]
  }

  function InsertJobs(db: Db, entries: seq<JobEntry>): Option<Db> {
    if CanInsertJobs(db, entries) then
      Some(db.(jobs := db.jobs + ById(entries)))
    else
      None
  }

  predicate CanInsertParked(db: Db, rows: seq<ParkedRow>) {
    && (forall i, k | 0 <= i < |rows| && k in db.parked ::
          && db.parked[k].id != rows[i].id
          && !SamePair(db.parked[k].message, db.parked[k].consumer, rows[i].message, rows[i].consumer))
    && forall i, j | 0 <= i < j < |rows| ::
         && rows[i].id != rows[j].id
         && !SamePair(rows[i].message, rows[i].consumer, rows[j].message, rows[j].consumer)
  }

  function RowNumbered(base: nat, rows: seq<ParkedRow>, k: nat): ParkedRow
    requires base <= k < base + |rows|
  {
    rows[k - base]
  }

  function NumberedFrom(base: nat, rows: seq<ParkedRow>): map<nat, ParkedRow> {
    map k | base <= k < base + |rows| :: RowNumbered(base, rows, k)
  }

  /** The new rows take the next `seq` values in order. */
  function InsertParked(db: Db, rows: seq<ParkedRow>): Option<Db> {
    if CanInsertParked(db, rows) then
      Some(db.(parked := db.parked + NumberedFrom(db.nextSeq, rows),
               nextSeq := db.nextSeq + |rows|))
    else
      None
  }

  // ---------- dispatch ----------

  function ParkedFrom(entry: JobEntry, parkedAt: Time): ParkedRow {
    ParkedRow(entry.id, entry.row.message, entry.row.consumer, entry.row.dispatchReceivedAt, entry.row.retries,
              entry.row.earliestNextAttemptAt, entry.row.priority, entry.row.incrementalTimeout, entry.row.createdAt, parkedAt)
  }

  function ParkedRows(entries: seq<JobEntry>, parkedAt: Time): seq<ParkedRow> {
    seq(|entries|, i requires 0 <= i < |entries| => ParkedFrom(entries[i], parkedAt))
  }

  /** The insert does not name the retry column, so the row starts at the column default. */
  function FreshRows(entries: seq<JobEntry>): seq<JobEntry> {
    seq(|entries|, i requires 0 <= i < |entries| => entries[i].(row := entries[i].row.(retries := 0)))
  }

  function SetDispatched(db: Db, message: MessageId, now: Time): Option<Db> {
    if message in db.messages && db.messages[message].status == Acknowledged then
      Some(db.(messages := db.messages[message := db.messages[message].(status := Dispatched, outboxedAt := now)]))
    else
      None
  }

  /** What `IsInValidState` and the message check demand of the entries of one dispatch. */
  predicate Dispatchable(message: MessageId, entries: seq<JobEntry>) {
    forall i | 0 <= i < |entries| :: entries[i].row.message == message && entries[i].row.status != Parked
  }

  function DispatchMessageWithParking(db: Db, message: MessageId, active: seq<JobEntry>, parked: seq<JobEntry>, now: Time): Option<Db> {
    if !Dispatchable(message, active) || !Dispatchable(message, parked) then None else
    match InsertJobs(db, FreshRows(active))
    case None => None
    case Some(db1) =>
      match InsertParked(db1, ParkedRows(parked, now))
      case None => None
      case Some(db2) => SetDispatched(db2, message, now)
  }

  // ---------- parking and draining ----------

  /** Moves a QUEUED job of a paused consumer into `job_parking`; `None` when nothing moved. */
  function ReparkQueuedJob(db: Db, id: JobId, now: Time): Option<Db> {
    if HasStatus(db, id, Queued) && Paused(db, db.jobs[id].consumer) then
      match InsertParked(db, [ParkedFrom(JobEntry(id, db.jobs[id]), now)])
      case None => None
      case Some(db1) => Some(db1.(jobs := db1.jobs - {id}))
    else
      None
  }

  predicate OlderParked(a: ParkedEntry, b: ParkedEntry) {
    a.row.createdAt < b.row.createdAt || (a.row.createdAt == b.row.createdAt && a.seqNo < b.seqNo)
  }

  function ParkedOf(db: Db, consumer: ConsumerId): map<nat, ParkedRow> {
    map k | k in db.parked && db.parked[k].consumer == consumer :: db.parked[k]
  }

  ghost predicate IsOldest(rows: map<nat, ParkedRow>, k: nat) {
    k in rows && forall j | j in rows && j != k :: OlderParked(ParkedEntry(k, rows[k]), ParkedEntry(j, rows[j]))
  }

  lemma {:induction false} OldestExists(rows: map<nat, ParkedRow>)
    requires rows != map[]
    ensures exists k :: IsOldest(rows, k)
    decreases |rows|
  {
    var k :| k in rows;
    var rest := rows - {k};
    assert rows == rest[k := rows[k]];
    if rest == map[] {
      assert IsOldest(rows, k);
    } else {
      assert |rest| < |rows| by { assert rest.Keys == rows.Keys - {k}; }
      OldestExists(rest);
      var j :| IsOldest(rest, j);
      if OlderParked(ParkedEntry(k, rows[k]), ParkedEntry(j, rows[j])) {
        assert IsOldest(rows, k);
      } else {
        assert IsOldest(rows, j);
      }
    }
  }

  /** The first row in (createdAt, seq) order. */
  function Oldest(rows: map<nat, ParkedRow>): (k: nat)
    requires rows != map[]
    ensures IsOldest(rows, k)
  {
    OldestExists(rows);
    var k :| k in rows && forall j | j in rows && j != k :: OlderParked(ParkedEntry(k, rows[k]), ParkedEntry(j, rows[j]));
    k
  }

  /** The first `limit` rows in (createdAt, seq) order. */
  function OldestRows(rows: map<nat, ParkedRow>, limit: nat): (page: seq<ParkedEntry>)
    ensures forall i | 0 <= i < |page| :: page[i].seqNo in rows && page[i].row == rows[page[i].seqNo]
    decreases limit
  {
    if limit == 0 || rows == map[] then [] else
    var k := Oldest(rows);
    [ParkedEntry(k, rows[k])] + OldestRows(rows - {k}, limit - 1)
  }

  /** What the drain query returns: nothing while the consumer is paused. */
  function ReadDrainPage(db: Db, consumer: ConsumerId, pageSize: int): (page: seq<ParkedEntry>)
    ensures forall i | 0 <= i < |page| ::
              && page[i].seqNo in db.parked && page[i].row == db.parked[page[i].seqNo]
              && page[i].row.consumer == consumer
  {
    if pageSize <= 0 || Paused(db, consumer) then [] else OldestRows(ParkedOf(db, consumer), pageSize)
  }

  function SeqNos(page: seq<ParkedEntry>): set<nat> {
    set i | 0 <= i < |page| :: page[i].seqNo
  }

  function DrainedRow(row: ParkedRow, earliest: Time, now: Time): JobRow {
    JobRow(row.message, row.consumer, Queued, row.retries, row.dispatchReceivedAt, now, earliest, row.createdAt, now,
           row.priority, row.incrementalTimeout)
  }

  function DrainedEntries(page: seq<ParkedEntry>, earliest: Time, now: Time): seq<JobEntry> {
    seq(|page|, i requires 0 <= i < |page| => JobEntry(page[i].row.id, DrainedRow(page[i].row, earliest, now)))
  }

  /** Deletes exactly the rows that were read, then inserts them as QUEUED jobs; the read may be old. */
  function CommitDrainPage(db: Db, page: seq<ParkedEntry>, earliest: Time, now: Time): Option<Db> {
    if |SeqNos(page) * db.parked.Keys| != |page| then None else
    InsertJobs(db.(parked := db.parked - SeqNos(page)), DrainedEntries(page, earliest, now))
  }

  // ---------- pauses and pruning ----------

  function Pause(db: Db, scope: Scope): Db {
    db.(pauses := db.pauses + {scope})
  }

  function Resume(db: Db, scope: Scope): Db {
    db.(pauses := db.pauses - {scope})
  }

  predicate CompletelyDelivered(db: Db, message: MessageId) {
    && message in db.messages && db.messages[message].status == Dispatched
    && (forall id | id in db.jobs && db.jobs[id].message == message :: db.jobs[id].status == Delivered)
    && forall k | k in db.parked :: db.parked[k].message != message
  }

  function JobsOf(db: Db, messages: set<MessageId>): set<JobId> {
    set id | id in db.jobs && db.jobs[id].message in messages
  }

  /** Deletes the jobs of the messages, then the messages. */
  function DeleteMessagesAndJobs(db: Db, messages: set<MessageId>): Db {
    db.(jobs := db.jobs - JobsOf(db, messages), messages := db.messages - messages)
  }
}
