/**
  The repositories as objects: statements that change the tables in place, transactions that
  put them back when a statement fails, and updates of the caller's job object afterwards.
  Each method is proved to have exactly the effect of its transaction on the database value.
 */
module Repositories {
  import opened Types
  import T = Transactions

  /** A node's copy of a job; its `status` is `Parked` when the job was read from `job_parking`. */
  class DeliveryJob {
    const id: JobId
    const message: MessageId
    const consumer: ConsumerId
    const dispatchReceivedAt: Time
    const createdAt: Time
    const priority: nat
    var status: JobStatus
    var retries: nat
    var statusChangedAt: Time
    var earliestNextAttemptAt: Time
    var updatedAt: Time
    var incrementalTimeout: nat

    constructor (entry: JobEntry)
      ensures Entry() == entry
    {
      id, message, consumer := entry.id, entry.row.message, entry.row.consumer;
      dispatchReceivedAt, createdAt, priority := entry.row.dispatchReceivedAt, entry.row.createdAt, entry.row.priority;
      status, retries, incrementalTimeout := entry.row.status, entry.row.retries, entry.row.incrementalTimeout;
      statusChangedAt, earliestNextAttemptAt, updatedAt :=
        entry.row.statusChangedAt, entry.row.earliestNextAttemptAt, entry.row.updatedAt;
    }

    function Row(): JobRow
      reads this
    {
      JobRow(message, consumer, status, retries, dispatchReceivedAt, statusChangedAt, earliestNextAttemptAt, createdAt,
             updatedAt, priority, incrementalTimeout)
    }

    function Entry(): JobEntry
      reads this
    {
      JobEntry(id, Row())
    }
  }

  function Entries(jobs: seq<DeliveryJob>): (entries: seq<JobEntry>)
    reads jobs
    ensures |entries| == |jobs| && forall i | 0 <= i < |jobs| :: entries[i] == jobs[i].Entry()
  {
    if jobs == [] then [] else
    var n := |jobs| - 1;
    Entries(jobs[..n]) + [jobs[n].Entry()]
  }

  // ---------- one row at a time ----------

  lemma ByIdGrows(entries: seq<JobEntry>, i: nat)
    requires i < |entries| && T.DistinctIds(entries[..i + 1]) && T.DistinctIds(entries[..i])
    ensures T.ById(entries[..i + 1]) == T.ById(entries[..i])[entries[i].id := entries[i].row]
  {
    assert entries[..i + 1][..i] == entries[..i];
  }

  /** Neither unique key of the `job` table is taken. */
  predicate Fits(jobs: map<JobId, JobRow>, entry: JobEntry) {
    && entry.id !in jobs
    && forall id | id in jobs :: !T.SamePair(jobs[id].message, jobs[id].consumer, entry.row.message, entry.row.consumer)
  }

  lemma FitsIfAllFit(db: Db, entries: seq<JobEntry>, i: nat)
    requires i < |entries| && T.CanInsertJobs(db, entries)
    ensures T.DistinctIds(entries[..i]) && Fits(db.jobs + T.ById(entries[..i]), entries[i])
  {
    var mid := db.jobs + T.ById(entries[..i]);
    forall id | id in mid
      ensures id != entries[i].id
      ensures !T.SamePair(mid[id].message, mid[id].consumer, entries[i].row.message, entries[i].row.consumer)
    {
      if id in T.ById(entries[..i]) {
        var j :| 0 <= j < i && entries[..i][j].id == id;
        assert mid[id] == entries[..i][j].row && entries[..i][j] == entries[j];
      }
    }
  }

  lemma AllFitIfEachFits(db: Db, entries: seq<JobEntry>, i: nat)
    requires i < |entries| && T.CanInsertJobs(db, entries[..i]) && Fits(db.jobs + T.ById(entries[..i]), entries[i])
    ensures T.CanInsertJobs(db, entries[..i + 1])
  {
    var mid := db.jobs + T.ById(entries[..i]);
    forall j | 0 <= j < i
      ensures entries[j].id != entries[i].id
      ensures !T.SamePair(entries[j].row.message, entries[j].row.consumer, entries[i].row.message, entries[i].row.consumer)
    {
      assert entries[..i][j] == entries[j];
      assert entries[j].id in mid && mid[entries[j].id] == entries[j].row;
    }
    forall id | id in db.jobs
      ensures id != entries[i].id
      ensures !T.SamePair(db.jobs[id].message, db.jobs[id].consumer, entries[i].row.message, entries[i].row.consumer)
    {
      KeptByInsert(db, entries[..i], id);
    }
    ExtendsCanInsert(db, entries, i);
  }

  lemma KeptByInsert(db: Db, entries: seq<JobEntry>, id: JobId)
    requires T.CanInsertJobs(db, entries) && id in db.jobs
    ensures var mid := db.jobs + T.ById(entries); id in mid && mid[id] == db.jobs[id]
  {
  }

  lemma ExtendsCanInsert(db: Db, entries: seq<JobEntry>, i: nat)
    requires i < |entries| && T.CanInsertJobs(db, entries[..i]) && Fits(db.jobs, entries[i])
    requires forall j | 0 <= j < i ::
               && entries[j].id != entries[i].id
               && !T.SamePair(entries[j].row.message, entries[j].row.consumer, entries[i].row.message, entries[i].row.consumer)
    ensures T.CanInsertJobs(db, entries[..i + 1])
  {
    assert forall j | 0 <= j < i :: entries[..i][j] == entries[..i + 1][j] == entries[j];
    assert entries[..i + 1][i] == entries[i];
  }

  lemma InsertOneMore(db: Db, entries: seq<JobEntry>, i: nat)
    requires i < |entries| && T.CanInsertJobs(db, entries[..i]) && Fits(db.jobs + T.ById(entries[..i]), entries[i])
    ensures T.CanInsertJobs(db, entries[..i + 1])
    ensures db.jobs + T.ById(entries[..i + 1]) == (db.jobs + T.ById(entries[..i]))[entries[i].id := entries[i].row]
  {
    AllFitIfEachFits(db, entries, i);
    ByIdGrows(entries, i);
  }

  lemma InsertStops(db: Db, entries: seq<JobEntry>, i: nat)
    requires i < |entries| && T.DistinctIds(entries[..i]) && !Fits(db.jobs + T.ById(entries[..i]), entries[i])
    ensures !T.CanInsertJobs(db, entries)
  {
    if T.CanInsertJobs(db, entries) { FitsIfAllFit(db, entries, i); }
  }

  /** A multi-row insert, row by row. */
  method InsertAll(db: Db, entries: seq<JobEntry>) returns (ok: bool, jobs: map<JobId, JobRow>)
    ensures ok == T.CanInsertJobs(db, entries)
    ensures ok ==> jobs == T.InsertJobs(db, entries).value.jobs
  {
    jobs := db.jobs;
    var i := 0;
    assert entries[..0] == [];
    while i < |entries|
      invariant 0 <= i <= |entries| && T.CanInsertJobs(db, entries[..i]) && jobs == db.jobs + T.ById(entries[..i])
    {
      if !Fits(jobs, entries[i]) {
        InsertStops(db, entries, i);
        return false, jobs;
      }
      InsertOneMore(db, entries, i);
      jobs := jobs[entries[i].id := entries[i].row];
      i := i + 1;
    }
    assert entries[..i] == entries;
    return true, jobs;
  }

  /** Neither unique key of the `job_parking` table is taken. */
  predicate ParkedFits(parked: map<nat, ParkedRow>, row: ParkedRow) {
    forall k | k in parked :: parked[k].id != row.id && !T.SamePair(parked[k].message, parked[k].consumer, row.message, row.consumer)
  }

  lemma ParkedFitsIfAllFit(db: Db, rows: seq<ParkedRow>, i: nat)
    requires i < |rows| && T.CanInsertParked(db, rows)
    ensures ParkedFits(db.parked + T.NumberedFrom(db.nextSeq, rows[..i]), rows[i])
  {
    var mid := db.parked + T.NumberedFrom(db.nextSeq, rows[..i]);
    forall k | k in mid ensures mid[k].id != rows[i].id && !T.SamePair(mid[k].message, mid[k].consumer, rows[i].message, rows[i].consumer) {
      if k in T.NumberedFrom(db.nextSeq, rows[..i]) {
        assert mid[k] == rows[k - db.nextSeq];
      }
    }
  }

  lemma AllFitIfEachParkedFits(db: Db, rows: seq<ParkedRow>, i: nat)
    requires i < |rows| && T.CanInsertParked(db, rows[..i]) && (forall k | k in db.parked :: k < db.nextSeq)
    requires ParkedFits(db.parked + T.NumberedFrom(db.nextSeq, rows[..i]), rows[i])
    ensures T.CanInsertParked(db, rows[..i + 1])
  {
    var mid := db.parked + T.NumberedFrom(db.nextSeq, rows[..i]);
    forall j | 0 <= j < i ensures rows[j].id != rows[i].id && !T.SamePair(rows[j].message, rows[j].consumer, rows[i].message, rows[i].consumer) {
      var k := db.nextSeq + j;
      assert k in mid && mid[k] == rows[j];
    }
    forall k | k in db.parked
      ensures db.parked[k].id != rows[i].id && !T.SamePair(db.parked[k].message, db.parked[k].consumer, rows[i].message, rows[i].consumer)
    {
      assert k in mid && mid[k] == db.parked[k];
    }
    ExtendsCanInsertParked(db, rows, i);
  }

  lemma ExtendsCanInsertParked(db: Db, rows: seq<ParkedRow>, i: nat)
    requires i < |rows| && T.CanInsertParked(db, rows[..i]) && ParkedFits(db.parked, rows[i])
    requires forall j | 0 <= j < i :: rows[j].id != rows[i].id && !T.SamePair(rows[j].message, rows[j].consumer, rows[i].message, rows[i].consumer)
    ensures T.CanInsertParked(db, rows[..i + 1])
  {
    assert forall j | 0 <= j < i :: rows[..i][j] == rows[..i + 1][j] == rows[j];
    assert rows[..i + 1][i] == rows[i];
  }

  lemma NumberedGrows(base: nat, rows: seq<ParkedRow>, i: nat)
    requires i < |rows|
    ensures T.NumberedFrom(base, rows[..i + 1]) == T.NumberedFrom(base, rows[..i])[base + i := rows[i]]
  {
  }

  lemma InsertOneMoreParked(db: Db, rows: seq<ParkedRow>, i: nat)
    requires i < |rows| && T.CanInsertParked(db, rows[..i]) && (forall k | k in db.parked :: k < db.nextSeq)
    requires ParkedFits(db.parked + T.NumberedFrom(db.nextSeq, rows[..i]), rows[i])
    ensures T.CanInsertParked(db, rows[..i + 1])
    ensures db.parked + T.NumberedFrom(db.nextSeq, rows[..i + 1]) == (db.parked + T.NumberedFrom(db.nextSeq, rows[..i]))[db.nextSeq + i := rows[i]]
  {
    AllFitIfEachParkedFits(db, rows, i);
    NumberedGrows(db.nextSeq, rows, i);
  }

  lemma InsertParkedStops(db: Db, rows: seq<ParkedRow>, i: nat)
    requires i < |rows| && !ParkedFits(db.parked + T.NumberedFrom(db.nextSeq, rows[..i]), rows[i])
    ensures !T.CanInsertParked(db, rows)
  {
    if T.CanInsertParked(db, rows) { ParkedFitsIfAllFit(db, rows, i); }
  }

  method InsertAllParked(db: Db, rows: seq<ParkedRow>) returns (ok: bool, parked: map<nat, ParkedRow>)
    requires forall k | k in db.parked :: k < db.nextSeq
    ensures ok == T.CanInsertParked(db, rows)
    ensures ok ==> parked == T.InsertParked(db, rows).value.parked
  {
    parked := db.parked;
    var i := 0;
    assert rows[..0] == [];
    while i < |rows|
      invariant 0 <= i <= |rows| && T.CanInsertParked(db, rows[..i])
      invariant parked == db.parked + T.NumberedFrom(db.nextSeq, rows[..i])
    {
      if !ParkedFits(parked, rows[i]) {
        InsertParkedStops(db, rows, i);
        return false, parked;
      }
      InsertOneMoreParked(db, rows, i);
      parked := parked[db.nextSeq + i := rows[i]];
      i := i + 1;
    }
    assert rows[..i] == rows;
    return true, parked;
  }

  // ---------- the repository ----------

  class Repository {
    var tables: Db

    /** Parking numbers are taken in order and never used again. */
    ghost predicate Valid()
      reads this
    {
      forall k | k in tables.parked :: k < tables.nextSeq
    }

    constructor ()
      ensures Valid() && tables == Db(map[], map[], map[], {}, 0)
    {
      tables := Db(map[], map[], map[], {}, 0);
    }

    /** A multi-row insert: all rows or none. */
    method InsertJobRows(entries: seq<JobEntry>) returns (ok: bool)
      modifies this
      ensures ok == T.CanInsertJobs(old(tables), entries)
      ensures tables == if ok then T.InsertJobs(old(tables), entries).value else old(tables)
    {
      var jobs;
      ok, jobs := InsertAll(tables, entries);
      if ok { tables := tables.(jobs := jobs); }
    }

    method InsertParkedRows(rows: seq<ParkedRow>) returns (ok: bool)
      requires Valid()
      modifies this
      ensures Valid() && ok == T.CanInsertParked(old(tables), rows)
      ensures tables == if ok then T.InsertParked(old(tables), rows).value else old(tables)
    {
      var parked;
      ok, parked := InsertAllParked(tables, rows);
      if ok { tables := tables.(parked := parked, nextSeq := tables.nextSeq + |rows|); }
    }

    /** The checks before a dispatch: every job belongs to the message and none is marked parked. */
    method AllDispatchable(message: MessageId, jobs: seq<DeliveryJob>) returns (ok: bool)
      ensures ok == T.Dispatchable(message, Entries(jobs))
    {
      var i := 0;
      while i < |jobs|
        invariant 0 <= i <= |jobs|
        invariant forall j | 0 <= j < i :: jobs[j].message == message && jobs[j].status != Parked
      {
        if jobs[i].message != message || jobs[i].status == Parked {
          assert Entries(jobs)[i] == jobs[i].Entry();
          return false;
        }
        i := i + 1;
      }
      return true;
    }

    method SetDispatched(message: MessageId, now: Time) returns (ok: bool)
      modifies this
      ensures ok == T.SetDispatched(old(tables), message, now).Some?
      ensures tables == if ok then T.SetDispatched(old(tables), message, now).value else old(tables)
    {
      ok := message in tables.messages && tables.messages[message].status == Acknowledged;
      if ok {
        tables := tables.(messages := tables.messages[message := tables.messages[message].(status := Dispatched, outboxedAt := now)]);
      }
    }

    /** The three writes of a dispatch; the tables go back to what they were when one of them fails. */
    method WriteDispatch(message: MessageId, active: seq<JobEntry>, parked: seq<JobEntry>, now: Time) returns (ok: bool)
      requires Valid() && T.Dispatchable(message, active) && T.Dispatchable(message, parked)
      modifies this
      ensures Valid()
      ensures ok == T.DispatchMessageWithParking(old(tables), message, active, parked, now).Some?
      ensures tables == if ok then T.DispatchMessageWithParking(old(tables), message, active, parked, now).value else old(tables)
    {
      var before := tables;
      ok := InsertJobRows(T.FreshRows(active));
      if ok {
        ok := InsertParkedRows(T.ParkedRows(parked, now));
        if ok {
          ok := SetDispatched(message, now);
        }
      }
      if !ok { tables := before; }
    }

    method DispatchMessageWithParking(message: MessageId, active: seq<DeliveryJob>, parked: seq<DeliveryJob>, now: Time) returns (ok: bool)
      requires Valid()
      modifies this, parked
      ensures Valid()
      ensures var next := old(T.DispatchMessageWithParking(tables, message, Entries(active), Entries(parked), now));
              ok == next.Some? && tables == if ok then next.value else old(tables)
      ensures forall job | job in parked :: job.Row() == if ok then old(job.Row()).(status := Parked) else old(job.Row())
    {
      ok := AllDispatchable(message, active);
      if ok { ok := AllDispatchable(message, parked); }
      if ok {
        ok := WriteDispatch(message, Entries(active), Entries(parked), now);
      }
      if ok { MarkParked(parked); }
    }

    // ---------- status changes of one job ----------

    /** Hands the job out if it is QUEUED, its count is the copy's and its consumer is not paused. */
    method MarkJobInflight(job: DeliveryJob, now: Time) returns (ok: bool)
      modifies this, job
      ensures var next := T.MarkJobInflight(old(tables), job.id, old(job.retries), old(job.incrementalTimeout), now);
              ok == next.Some? && tables == if ok then next.value else old(tables)
      ensures job.Row() == if ok then old(job.Row()).(status := Inflight, statusChangedAt := now, updatedAt := now) else old(job.Row())
    {
      ok := T.HasStatus(tables, job.id, Queued) && tables.jobs[job.id].retries == job.retries
            && !T.Paused(tables, tables.jobs[job.id].consumer);
      if ok {
        tables := T.WithJob(tables, job.id, tables.jobs[job.id].(
          status := Inflight, incrementalTimeout := job.incrementalTimeout, statusChangedAt := now, updatedAt := now));
        job.status, job.statusChangedAt, job.updatedAt := Inflight, now, now;
      }
    }

    method UpdateJobStatus(job: DeliveryJob, from: JobStatus, to: JobStatus, now: Time) returns (ok: bool)
      modifies this, job
      ensures var next := T.UpdateStatus(old(tables), job.id, from, to, old(job.incrementalTimeout), now);
              ok == next.Some? && tables == if ok then next.value else old(tables)
      ensures job.Row() == if ok then old(job.Row()).(status := to, statusChangedAt := now, updatedAt := now) else old(job.Row())
    {
      ok := T.HasStatus(tables, job.id, from);
      if ok {
        tables := T.WithJob(tables, job.id, tables.jobs[job.id].(
          status := to, incrementalTimeout := job.incrementalTimeout, statusChangedAt := now, updatedAt := now));
        job.status, job.statusChangedAt, job.updatedAt := to, now, now;
      }
    }

    /** The stored count becomes the copy's count plus one. */
    method MarkJobRetry(job: DeliveryJob, delta: nat, now: Time) returns (ok: bool)
      modifies this, job
      ensures var next := T.MarkJobRetry(old(tables), job.id, old(job.retries), delta, now);
              ok == next.Some? && tables == if ok then next.value else old(tables)
      ensures job.Row() == if ok then old(job.Row()).(status := Queued, statusChangedAt := now, updatedAt := now,
                                                      earliestNextAttemptAt := now + delta, retries := old(job.retries) + 1)
                           else old(job.Row())
    {
      ok := T.HasStatus(tables, job.id, Inflight);
      if ok {
        tables := T.WithJob(tables, job.id, tables.jobs[job.id].(
          status := Queued, statusChangedAt := now, updatedAt := now, earliestNextAttemptAt := now + delta, retries := job.retries + 1));
        job.status, job.statusChangedAt, job.updatedAt := Queued, now, now;
        job.earliestNextAttemptAt, job.retries := now + delta, job.retries + 1;
      }
    }

    method MarkDeadJobAsInflight(job: DeliveryJob, now: Time) returns (ok: bool)
      modifies this, job
      ensures var next := T.MarkDeadJobAsInflight(old(tables), job.id, old(job.retries), old(job.incrementalTimeout), now);
              ok == next.Some? && tables == if ok then next.value else old(tables)
      ensures job.Row() == if ok then old(job.Row()).(status := Inflight, statusChangedAt := now, updatedAt := now,
                                                      earliestNextAttemptAt := now, retries := old(job.retries) + 1)
                           else old(job.Row())
    {
      ok := T.HasStatus(tables, job.id, Dead) && !T.Paused(tables, tables.jobs[job.id].consumer);
      if ok {
        tables := T.WithJob(tables, job.id, tables.jobs[job.id].(
          status := Inflight, incrementalTimeout := job.incrementalTimeout, statusChangedAt := now, updatedAt := now,
          earliestNextAttemptAt := now, retries := job.retries + 1));
        job.status, job.statusChangedAt, job.updatedAt := Inflight, now, now;
        job.earliestNextAttemptAt, job.retries := now, job.retries + 1;
      }
    }

    // ---------- parking and draining ----------

    /** Copies the row into `job_parking`, then deletes it from `job`, if it is QUEUED and its consumer paused. */
    method ReparkQueuedJob(job: DeliveryJob, now: Time) returns (moved: bool, ok: bool)
      requires Valid()
      modifies this, job
      ensures Valid()
      ensures var next := T.ReparkQueuedJob(old(tables), job.id, now);
              && moved == next.Some? && tables == (if moved then next.value else old(tables))
              && ok == (moved || !T.HasStatus(old(tables), job.id, Queued) || !T.Paused(old(tables), old(tables).jobs[job.id].consumer))
      ensures job.Row() == if moved then old(job.Row()).(status := Parked) else old(job.Row())
    {
      if !T.HasStatus(tables, job.id, Queued) || !T.Paused(tables, tables.jobs[job.id].consumer) { return false, true; }
      ok := InsertParkedRows([T.ParkedFrom(JobEntry(job.id, tables.jobs[job.id]), now)]);
      moved := ok;
      if moved {
        tables := tables.(jobs := tables.jobs - {job.id});
        job.status := Parked;
      }
    }

    /** Deletes the listed rows and counts those that were there. */
    method DeleteParkedRows(page: seq<ParkedEntry>) returns (count: nat)
      modifies this
      ensures tables == old(tables).(parked := old(tables).parked - T.SeqNos(page))
      ensures count == |T.SeqNos(page) * old(tables).parked.Keys|
    {
      var seqs := KeysOf(page);
      var parked;
      parked, count := DeleteKeys(tables.parked, seqs);
      tables := tables.(parked := parked);
    }

    /**
      Moves a page that was read earlier: its rows must still all be there, and become QUEUED
      jobs. The new job objects come back in page order.
     */
    method MovePage(page: seq<ParkedEntry>, earliest: Time, now: Time) returns (jobs: seq<DeliveryJob>, ok: bool)
      requires Valid()
      modifies this
      ensures Valid()
      ensures var next := T.CommitDrainPage(old(tables), page, earliest, now);
              ok == next.Some? && tables == if ok then next.value else old(tables)
      ensures fresh(jobs) && Entries(jobs) == if ok then T.DrainedEntries(page, earliest, now) else []
    {
      jobs := [];
      var before := tables;
      var count := DeleteParkedRows(page);
      ok := count == |page|;
      if ok { ok := InsertJobRows(T.DrainedEntries(page, earliest, now)); }
      if ok {
        jobs := NewJobs(T.DrainedEntries(page, earliest, now));
      } else {
        tables := before;
      }
    }

    /**
      Moves the oldest parked jobs of a consumer that is not paused. `populated` is whether the
      messages and listeners of the moved jobs could be loaded afterwards; the move stands either way.
     */
    method DrainPage(consumer: ConsumerId, pageSize: int, earliest: Time, now: Time, populated: bool) returns (jobs: seq<DeliveryJob>, ok: bool)
      requires Valid()
      modifies this
      ensures Valid()
      ensures var page := T.ReadDrainPage(old(tables), consumer, pageSize);
              var next := T.CommitDrainPage(old(tables), page, earliest, now);
              && tables == (if next.Some? then next.value else old(tables))
              && ok == (next.Some? && (page == [] || populated))
              && fresh(jobs) && Entries(jobs) == if next.Some? then T.DrainedEntries(page, earliest, now) else []
    {
      CommitNothing(tables, earliest, now);
      var page := T.ReadDrainPage(tables, consumer, pageSize);
      if page == [] { return [], true; }
      jobs, ok := MovePage(page, earliest, now);
      ok := ok && populated;
    }

    /**
      The consumers that have parked jobs and are not paused. `scopes` and `parkedConsumers`
      are the results of the two queries, in any order.
     */
    method GetDrainableConsumerIds(scopes: seq<Scope>, parkedConsumers: seq<ConsumerId>) returns (consumers: seq<ConsumerId>)
      requires forall scope :: scope in scopes <==> scope in tables.pauses
      requires forall i, j | 0 <= i < j < |parkedConsumers| :: parkedConsumers[i] != parkedConsumers[j]
      requires forall c :: c in parkedConsumers <==> exists k :: k in tables.parked && tables.parked[k].consumer == c
      ensures forall i, j | 0 <= i < j < |consumers| :: consumers[i] != consumers[j]
      ensures forall c :: c in consumers <==> !T.Paused(tables, c) && exists k :: k in tables.parked && tables.parked[k].consumer == c
    {
      var paused: set<ConsumerId> := {};
      for i := 0 to |scopes|
        invariant forall c :: c in paused <==> Consumer(c) in scopes[..i]
        invariant Global !in scopes[..i]
      {
        assert scopes[..i + 1] == scopes[..i] + [scopes[i]];
        if scopes[i].Global? { return []; }
        paused := paused + {scopes[i].consumer};
      }
      assert scopes[..|scopes|] == scopes;
      consumers := Unpaused(parkedConsumers, paused);
    }

    /** Deletes the jobs and then the messages, a hundred messages at a time. */
    method DeleteMessagesAndJobs(messages: seq<MessageId>)
      modifies this
      ensures tables == T.DeleteMessagesAndJobs(old(tables), Listed(messages))
    {
      var i := 0;
      DeleteNone(tables);
      while i < |messages|
        invariant 0 <= i <= |messages|
        invariant tables == T.DeleteMessagesAndJobs(old(tables), Listed(messages[..i]))
      {
        var end := if i + 100 < |messages| then i + 100 else |messages|;
        var batch := messages[i..end];
        DeleteMore(old(tables), messages[..i], batch);
        assert messages[..i] + batch == messages[..end];
        tables := tables.(jobs := tables.jobs - T.JobsOf(tables, Listed(batch)));
        tables := tables.(messages := tables.messages - Listed(batch));
        i := end;
      }
      assert messages[..i] == messages;
    }
  }

  function Listed(seqs: seq<nat>): set<nat> {
    set k | k in seqs
  }

  /** The primary keys to delete, in page order. */
  method KeysOf(page: seq<ParkedEntry>) returns (seqs: seq<nat>)
    ensures |seqs| == |page| && forall i | 0 <= i < |page| :: seqs[i] == page[i].seqNo
    ensures Listed(seqs) == T.SeqNos(page)
  {
    seqs := [];
    for i := 0 to |page|
      invariant |seqs| == i && forall j | 0 <= j < i :: seqs[j] == page[j].seqNo
    {
      seqs := seqs + [page[i].seqNo];
    }
    assert forall i | 0 <= i < |page| :: page[i].seqNo in seqs && page[i].seqNo in T.SeqNos(page);
  }

  /** Deletes the rows with the listed keys and counts those that were there. */
  method DeleteKeys(parked: map<nat, ParkedRow>, seqs: seq<nat>) returns (rest: map<nat, ParkedRow>, count: nat)
    ensures rest == parked - Listed(seqs)
    ensures count == |Listed(seqs) * parked.Keys|
  {
    rest, count := parked, 0;
    ghost var hit: set<nat> := {};
    for i := 0 to |seqs|
      invariant forall k :: k in hit <==> k in seqs[..i] && k in parked
      invariant forall k :: k in rest <==> k in parked && k !in seqs[..i]
      invariant forall k | k in rest :: rest[k] == parked[k]
      invariant count == |hit|
    {
      var k := seqs[i];
      assert seqs[..i + 1] == seqs[..i] + [k];
      if k in rest {
        rest, count := rest - {k}, count + 1;
        hit := hit + {k};
      }
    }
    assert seqs[..|seqs|] == seqs;
    AllDeleted(parked, seqs, rest, hit);
  }

  lemma AllDeleted(parked: map<nat, ParkedRow>, seqs: seq<nat>, rest: map<nat, ParkedRow>, hit: set<nat>)
    requires forall k :: k in hit <==> k in seqs && k in parked
    requires (forall k :: k in rest <==> k in parked && k !in seqs) && forall k | k in rest :: rest[k] == parked[k]
    ensures hit == Listed(seqs) * parked.Keys && rest == parked - Listed(seqs)
  {
  }

  method NewJobs(entries: seq<JobEntry>) returns (jobs: seq<DeliveryJob>)
    ensures fresh(jobs) && Entries(jobs) == entries
  {
    jobs := [];
    for i := 0 to |entries|
      invariant |jobs| == i && fresh(jobs) && forall j | 0 <= j < i :: jobs[j].Entry() == entries[j]
    {
      var job := new DeliveryJob(entries[i]);
      jobs := jobs + [job];
    }
  }

  method MarkParked(jobs: seq<DeliveryJob>)
    modifies jobs
    ensures forall job | job in jobs :: job.Row() == old(job.Row()).(status := Parked)
  {
    for i := 0 to |jobs|
      invariant forall j | 0 <= j < i :: jobs[j].Row() == old(jobs[j].Row()).(status := Parked)
      invariant forall j | 0 <= j < |jobs| :: jobs[j].Row() == old(jobs[j].Row()) || jobs[j].Row() == old(jobs[j].Row()).(status := Parked)
    {
      jobs[i].status := Parked;
    }
  }

  lemma CommitNothing(db: Db, earliest: Time, now: Time)
    ensures T.CommitDrainPage(db, [], earliest, now) == Some(db)
  {
    assert T.SeqNos([]) * db.parked.Keys == {};
    assert db.parked - T.SeqNos([]) == db.parked;
    assert T.DrainedEntries([], earliest, now) == [];
    assert db.jobs + T.ById([]) == db.jobs;
  }

  method Unpaused(ids: seq<ConsumerId>, paused: set<ConsumerId>) returns (rest: seq<ConsumerId>)
    requires forall i, j | 0 <= i < j < |ids| :: ids[i] != ids[j]
    ensures forall i, j | 0 <= i < j < |rest| :: rest[i] != rest[j]
    ensures forall c :: c in rest <==> c in ids && c !in paused
  {
    rest := [];
    for i := 0 to |ids|
      invariant forall i, j | 0 <= i < j < |rest| :: rest[i] != rest[j]
      invariant forall c :: c in rest <==> c in ids[..i] && c !in paused
    {
      assert ids[..i + 1] == ids[..i] + [ids[i]];
      if ids[i] !in paused { rest := rest + [ids[i]]; }
    }
    assert ids[..|ids|] == ids;
  }

  lemma DeleteNone(db: Db)
    ensures T.DeleteMessagesAndJobs(db, Listed([])) == db
  {
    assert T.JobsOf(db, Listed([])) == {};
  }

  lemma DeleteMore(db: Db, first: seq<MessageId>, batch: seq<MessageId>)
    ensures T.DeleteMessagesAndJobs(T.DeleteMessagesAndJobs(db, Listed(first)), Listed(batch)) == T.DeleteMessagesAndJobs(db, Listed(first + batch))
  {
    var mid := T.DeleteMessagesAndJobs(db, Listed(first));
    assert Listed(first + batch) == Listed(first) + Listed(batch);
    assert mid.jobs - T.JobsOf(mid, Listed(batch)) == db.jobs - T.JobsOf(db, Listed(first + batch));
    assert mid.messages - Listed(batch) == db.messages - Listed(first + batch);
  }
}
