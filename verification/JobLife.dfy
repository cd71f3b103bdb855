/**
  The life of one job: where it is, and what every step of the protocol does to it. Places and
  moves are written against the rows of one job, without the transactions of the two tables, so
  the tables are proved to implement one small state machine per job.
 */
module JobLife {
  import opened Types
  import opened Transactions
  import opened Protocol
  import opened Placement
  import opened Worker

  datatype Place = Nowhere | Stored(job: JobRow) | Away(parked: ParkedRow)

  ghost predicate IsAt(db: Db, id: JobId, place: Place) {
    match place
    case Stored(job) => id in db.jobs && db.jobs[id] == job
    case Away(parked) => id !in db.jobs && parked.id == id && exists k :: k in db.parked && db.parked[k] == parked
    case Nowhere => id !in db.jobs && forall k | k in db.parked :: db.parked[k].id != id
  }

  lemma PlaceExists(db: Db, id: JobId) returns (place: Place)
    ensures IsAt(db, id, place)
  {
    if id in db.jobs {
      place := Stored(db.jobs[id]);
    } else if k :| k in db.parked && db.parked[k].id == id {
      place := Away(db.parked[k]);
    } else {
      place := Nowhere;
    }
  }

  /** In every reachable state a job is in one place only. */
  lemma PlaceIsUnique(cfg: Config, s: System, id: JobId, a: Place, b: Place)
    requires Reachable(cfg, s) && IsAt(s.db, id, a) && IsAt(s.db, id, b)
    ensures a == b
  {
    ReachableInv(cfg, s);
  }

  predicate Covers(scope: Scope, consumer: ConsumerId) {
    match scope
    case Global => true
    case Consumer(c) => c == consumer
  }

  ghost predicate IsCoveredBy(scopes: set<Scope>, consumer: ConsumerId) {
    exists scope :: scope in scopes && Covers(scope, consumer)
  }

  lemma CoveredIff(scopes: set<Scope>, consumer: ConsumerId)
    ensures IsCoveredBy(scopes, consumer) <==> Global in scopes || Consumer(consumer) in scopes
  {
    assert Covers(Global, consumer) && Covers(Consumer(consumer), consumer);
    if IsCoveredBy(scopes, consumer) {
      var scope :| scope in scopes && Covers(scope, consumer);
      assert scope == Global || scope == Consumer(consumer);
    }
  }

  // ---------- the moves of one job ----------

  /** The two rows are of the same job; each table has times of its own. */
  predicate SameJob(id: JobId, job: JobRow, parked: ParkedRow) {
    && parked.id == id && parked.message == job.message && parked.consumer == job.consumer
    && parked.retries == job.retries && parked.priority == job.priority && parked.incrementalTimeout == job.incrementalTimeout
    && parked.dispatchReceivedAt == job.dispatchReceivedAt && parked.createdAt == job.createdAt
  }

  predicate IsParked(id: JobId, job: JobRow, to: Place, now: Time) {
    to.Away? && SameJob(id, job, to.parked) && to.parked.parkedAt == now && to.parked.earliestNextAttemptAt == job.earliestNextAttemptAt
  }

  predicate IsDrained(id: JobId, parked: ParkedRow, to: Place, earliest: Time, now: Time) {
    && to.Stored? && SameJob(id, to.job, parked) && to.job.status == Queued
    && to.job.earliestNextAttemptAt == earliest && to.job.statusChangedAt == now && to.job.updatedAt == now
  }

  /** The row with a new status, written at `now`. */
  function Changed(job: JobRow, status: JobStatus, now: Time): JobRow {
    job.(status := status, statusChangedAt := now, updatedAt := now)
  }

  predicate IsStored(place: Place, status: JobStatus) {
    place.Stored? && place.job.status == status
  }

  ghost predicate DispatchCommits(s: System, message: MessageId, entries: seq<JobEntry>) {
    FreshJobs(s, message, entries) && message in s.db.messages && s.db.messages[message].status == Acknowledged
  }

  /** The drain transaction is open and nobody has taken a row of its page. */
  ghost predicate DrainCommits(s: System, tx: nat) {
    tx in s.drains && forall i | 0 <= i < |s.drains[tx]| :: s.drains[tx][i].seqNo in s.db.parked
  }

  ghost predicate IsOnPage(page: seq<ParkedEntry>, id: JobId) {
    exists i :: 0 <= i < |page| && page[i].row.id == id
  }

  predicate IsStatusStep(step: Step) {
    step.HandOut? || step.Deliver? || step.Bury? || step.BuryQueued? || step.Retry? || step.HandOutDead? || step.RequeueDead?
  }

  /** What an update of the status of one job does to it; a guard that fails changes nothing. */
  ghost predicate StatusMoves(s: System, step: Step, from: Place, to: Place)
    requires IsStatusStep(step)
  {
    match step
    case HandOut(_, copyRetries, timeout, now) =>
      to == if IsStored(from, Queued) && from.job.retries == copyRetries && !IsCoveredBy(s.db.pauses, from.job.consumer)
            then Stored(Changed(from.job, Inflight, now).(incrementalTimeout := timeout)) else from
    case Deliver(_, timeout, now) =>
      to == if IsStored(from, Inflight) then Stored(Changed(from.job, Delivered, now).(incrementalTimeout := timeout)) else from
    case Bury(_, timeout, now) =>
      to == if IsStored(from, Inflight) then Stored(Changed(from.job, Dead, now).(incrementalTimeout := timeout)) else from
    case BuryQueued(_, timeout, now) =>
      to == if IsStored(from, Queued) then Stored(Changed(from.job, Dead, now).(incrementalTimeout := timeout)) else from
    case Retry(_, copyRetries, delta, now) =>
      to == if IsStored(from, Inflight)
            then Stored(Changed(from.job, Queued, now).(retries := copyRetries + 1, earliestNextAttemptAt := now + delta)) else from
    case HandOutDead(_, copyRetries, timeout, now) =>
      to == if IsStored(from, Dead) && !IsCoveredBy(s.db.pauses, from.job.consumer)
            then Stored(Changed(from.job, Inflight, now).(retries := copyRetries + 1, earliestNextAttemptAt := now, incrementalTimeout := timeout)) else from
    case RequeueDead(_, now) =>
      to == if IsStored(from, Dead) then Stored(Changed(from.job, Queued, now).(retries := 0)) else from
  }

  predicate IsSpent(cfg: Config, place: Place) {
    IsStored(place, Dead) && place.job.retries >= cfg.maxRetry
  }

  /** What a step does to job `id`. */
  ghost predicate Moves(cfg: Config, s: System, step: Step, id: JobId, from: Place, to: Place) {
    match step
    case Dispatch(message, entries, snapshot, now) =>
      if DispatchCommits(s, message, entries) && (exists e :: e in entries && e.id == id) then
        forall e | e in entries && e.id == id :: if IsCoveredBy(snapshot, e.row.consumer) then IsParked(id, e.row, to, now) else to == Stored(e.row)
      else
        to == from
    case RequeueAllDead(consumer, now) =>
      to == if IsStored(from, Dead) && from.job.consumer == consumer then Stored(Changed(from.job, Queued, now).(retries := 0)) else from
    case DeleteDead(j) => to == if j == id && IsSpent(cfg, from) then Nowhere else from
    case DeleteAllDead(consumer) => to == if IsSpent(cfg, from) && from.job.consumer == consumer then Nowhere else from
    case Repark(j, now) =>
      if j == id && IsStored(from, Queued) && IsCoveredBy(s.db.pauses, from.job.consumer) then IsParked(id, from.job, to, now) else to == from
    case CommitDrain(tx, earliest, now) =>
      if DrainCommits(s, tx) && from.Away? && IsOnPage(s.drains[tx], id) then IsDrained(id, from.parked, to, earliest, now) else to == from
    case PruneDelete(messages) =>
      to == if messages <= s.pruneReads && from.Stored? && from.job.message in messages then Nowhere else from
    case CreateMessage(_, _) => to == from
    case BeginDrain(_, _, _) => to == from
    case PauseScope(_) => to == from
    case ResumeScope(_) => to == from
    case PruneRead(_) => to == from
    case _ => if step.id == id then StatusMoves(s, step, from, to) else to == from
  }

  // ---------- each kind of step ----------

  /** No job is parked twice. */
  ghost predicate ParkedApart(db: Db) {
    forall k, j | k in db.parked && j in db.parked && db.parked[k].id == db.parked[j].id :: k == j
  }

  lemma Unmoved(db: Db, db': Db, id: JobId, from: Place, to: Place)
    requires IsAt(db, id, from) && IsAt(db', id, to) && ParkedApart(db) && db'.parked == db.parked
    requires (id in db.jobs <==> id in db'.jobs) && (id in db.jobs ==> db.jobs[id] == db'.jobs[id])
    ensures to == from
  {
  }

  lemma RowWritten(db: Db, j: JobId, row: JobRow, id: JobId, from: Place, to: Place)
    requires IsAt(db, id, from) && IsAt(WithJob(db, j, row), id, to) && ParkedApart(db) && j in db.jobs
    ensures to == if id == j then Stored(row) else from
  {
    if id != j { Unmoved(db, WithJob(db, j, row), id, from, to); }
  }

  /** A status step writes the row of its job or nothing. */
  lemma StatusStepWrites(cfg: Config, s: System, step: Step, id: JobId, from: Place, to: Place)
    requires IsStatusStep(step) && IsAt(s.db, id, from) && IsAt(Do(cfg, s, step).db, id, to) && ParkedApart(s.db)
    ensures step.id != id ==> to == from
    ensures step.id == id && !from.Stored? ==> to == from
  {
    var t := Do(cfg, s, step).db;
    if step.id in s.db.jobs && t == WithJob(s.db, step.id, t.jobs[step.id]) {
      RowWritten(s.db, step.id, t.jobs[step.id], id, from, to);
    } else {
      assert t == s.db;
      Unmoved(s.db, t, id, from, to);
    }
  }

  lemma HandOutMoves(cfg: Config, s: System, step: Step, id: JobId, from: Place, to: Place)
    requires (step.HandOut? || step.HandOutDead?) && step.id == id && from.Stored? && IsAt(s.db, id, from) && IsAt(Do(cfg, s, step).db, id, to)
    ensures StatusMoves(s, step, from, to)
  {
    CoveredIff(s.db.pauses, from.job.consumer);
  }

  lemma RecordMoves(cfg: Config, s: System, step: Step, id: JobId, from: Place, to: Place)
    requires (step.Deliver? || step.Bury? || step.BuryQueued?) && step.id == id && from.Stored? && IsAt(s.db, id, from) && IsAt(Do(cfg, s, step).db, id, to)
    ensures StatusMoves(s, step, from, to)
  {
  }

  lemma ReturnMoves(cfg: Config, s: System, step: Step, id: JobId, from: Place, to: Place)
    requires (step.Retry? || step.RequeueDead?) && step.id == id && from.Stored? && IsAt(s.db, id, from) && IsAt(Do(cfg, s, step).db, id, to)
    ensures StatusMoves(s, step, from, to)
  {
  }

  lemma StatusStepMoves(cfg: Config, s: System, step: Step, id: JobId, from: Place, to: Place)
    requires IsStatusStep(step) && IsAt(s.db, id, from) && IsAt(Do(cfg, s, step).db, id, to) && ParkedApart(s.db)
    ensures Moves(cfg, s, step, id, from, to)
  {
    StatusStepWrites(cfg, s, step, id, from, to);
    if step.id == id && from.Stored? {
      if step.HandOut? || step.HandOutDead? {
        HandOutMoves(cfg, s, step, id, from, to);
      } else if step.Retry? || step.RequeueDead? {
        ReturnMoves(cfg, s, step, id, from, to);
      } else {
        RecordMoves(cfg, s, step, id, from, to);
      }
    }
  }

  /** The steps on all dead jobs of a consumer, the deletes and the prune. */
  lemma BulkStepMoves(cfg: Config, s: System, step: Step, id: JobId, from: Place, to: Place)
    requires step.RequeueAllDead? || step.DeleteDead? || step.DeleteAllDead? || step.PruneDelete?
    requires IsAt(s.db, id, from) && IsAt(Do(cfg, s, step).db, id, to) && ParkedAreLive(s) && ParkedApart(s.db)
    ensures Moves(cfg, s, step, id, from, to)
  {
    var t := Do(cfg, s, step).db;
    assert t.parked == s.db.parked;
    if from.Stored? {
      assert forall k | k in s.db.parked :: s.db.parked[k].id != id;
    } else {
      Unmoved(s.db, t, id, from, to);
    }
  }

  lemma ReparkStepMoves(cfg: Config, s: System, j: JobId, now: Time, id: JobId, from: Place, to: Place)
    requires Reachable(cfg, s) && IsAt(s.db, id, from) && IsAt(Do(cfg, s, Repark(j, now)).db, id, to)
    ensures Moves(cfg, s, Repark(j, now), id, from, to)
  {
    ReachableInv(cfg, s);
    ReparkMovesIffQueuedAndPaused(cfg, s, j, now);
    if from.Stored? { CoveredIff(s.db.pauses, from.job.consumer); }
    if ReparkQueuedJob(s.db, j, now).Some? {
      ReparkIsMove(s, j, now);
      var t := Do(cfg, s, Repark(j, now)).db;
      assert t.parked[s.db.nextSeq].id == j && s.db.nextSeq !in s.db.parked;
      MovedPlaces(s, j, ParkedFrom(JobEntry(j, s.db.jobs[j]), now), id, from, to);
    } else {
      Unmoved(s.db, s.db, id, from, to);
    }
  }

  lemma MovedPlaces(s: System, j: JobId, row: ParkedRow, id: JobId, from: Place, to: Place)
    requires ParkedAreLive(s) && ParkedOnce(s) && row.id == j && j in s.db.jobs
    requires IsAt(s.db, id, from) && IsAt(Moved(s, j, row).db, id, to)
    ensures to == if id == j then Away(row) else from
  {
    var t := Moved(s, j, row).db;
    assert t.parked[s.db.nextSeq] == row && s.db.nextSeq !in s.db.parked;
    assert forall k | k in s.db.parked :: k in t.parked && t.parked[k] == s.db.parked[k];
  }

  // ---------- dispatch ----------

  ghost predicate AllDiffer(entries: seq<JobEntry>) {
    forall i, j | 0 <= i < j < |entries| :: entries[i].id != entries[j].id && entries[i].row.consumer != entries[j].row.consumer
  }

  lemma {:induction false} SplitDiffers(snapshot: set<Scope>, entries: seq<JobEntry>, paused: bool)
    requires AllDiffer(entries)
    ensures AllDiffer(Split(snapshot, entries, paused))
  {
    if entries != [] {
      var rest := Split(snapshot, entries[1..], paused);
      SplitDiffers(snapshot, entries[1..], paused);
      forall i | 0 <= i < |rest| ensures rest[i].id != entries[0].id && rest[i].row.consumer != entries[0].row.consumer {
        assert rest[i] in entries[1..];
      }
    }
  }

  /** New jobs of a message that was not dispatched clash with nothing in either table. */
  lemma FreshJobsFit(s: System, message: MessageId, entries: seq<JobEntry>, part: seq<JobEntry>)
    requires Inv(s) && DispatchCommits(s, message, entries) && AllDiffer(part) && forall e | e in part :: e in entries
    ensures CanInsertJobs(s.db, FreshRows(part))
  {
    forall i | 0 <= i < |part| ensures part[i].id !in s.db.jobs && part[i].row.message == message {
      assert part[i] in entries;
    }
    forall id | id in s.db.jobs ensures s.db.jobs[id].message != message {
      assert s.created[id].message in s.db.messages ==> s.db.messages[s.created[id].message].status == Dispatched;
    }
  }

  lemma FreshParkedFit(s: System, db: Db, message: MessageId, entries: seq<JobEntry>, part: seq<JobEntry>, now: Time)
    requires Inv(s) && DispatchCommits(s, message, entries) && AllDiffer(part) && (forall e | e in part :: e in entries) && db.parked == s.db.parked
    ensures CanInsertParked(db, ParkedRows(part, now))
  {
    forall i | 0 <= i < |part| ensures part[i].id !in s.created && part[i].row.message == message {
      assert part[i] in entries;
    }
    forall k | k in s.db.parked ensures s.db.parked[k].message != message && s.db.parked[k].id in s.created {
      assert s.created[s.db.parked[k].id].message in s.db.messages ==> s.db.messages[s.created[s.db.parked[k].id].message].status == Dispatched;
    }
  }

  /** The dispatch of new jobs commits if and only if its message is waiting for it, whatever the snapshot. */
  lemma DispatchCommitsIff(s: System, message: MessageId, entries: seq<JobEntry>, snapshot: set<Scope>, now: Time)
    requires Inv(s) && FreshJobs(s, message, entries)
    ensures DispatchMessageWithParking(s.db, message, Split(snapshot, entries, false), Split(snapshot, entries, true), now).Some?
            <==> DispatchCommits(s, message, entries)
  {
    var active, parked := Split(snapshot, entries, false), Split(snapshot, entries, true);
    if DispatchCommits(s, message, entries) {
      SplitDiffers(snapshot, entries, false);
      SplitDiffers(snapshot, entries, true);
      forall e | e in active || e in parked ensures e.row.message == message && e.row.status == Queued { assert e in entries; }
      assert Dispatchable(message, active) && Dispatchable(message, parked);
      FreshJobsFit(s, message, entries, active);
      var db1 := InsertJobs(s.db, FreshRows(active)).value;
      FreshParkedFit(s, db1, message, entries, parked, now);
    } else if DispatchMessageWithParking(s.db, message, active, parked, now).Some? {
      DispatchHasEffect(s, message, entries, snapshot, now);
    }
  }

  lemma DispatchedPlaces(s: System, db: Db, entries: seq<JobEntry>, snapshot: set<Scope>, now: Time, id: JobId, from: Place, to: Place)
    requires Inv(s) && DispatchEffect(s, db, entries, snapshot, now) && IsAt(s.db, id, from) && IsAt(db, id, to)
    requires forall e | e in entries :: e.id != id
    ensures to == from
  {
    if from.Away? {
      var k :| k in s.db.parked && s.db.parked[k] == from.parked;
      assert k in db.parked && db.parked[k] == from.parked;
    }
  }

  lemma NewPlaces(s: System, message: MessageId, db: Db, entries: seq<JobEntry>, snapshot: set<Scope>, now: Time, e: JobEntry, to: Place)
    requires Inv(s) && FreshJobs(s, message, entries) && DispatchEffect(s, db, entries, snapshot, now) && e in entries && IsAt(db, e.id, to)
    ensures if IsCoveredBy(snapshot, e.row.consumer) then IsParked(e.id, e.row, to, now) else to == Stored(e.row)
  {
    CoveredIff(snapshot, e.row.consumer);
    assert forall f | f in entries && f.id == e.id :: f == e;
    if Covered(snapshot, e.row.consumer) {
      assert e.id !in s.db.jobs && e.id !in db.jobs;
      assert to.Away?;
      var k :| k in db.parked && db.parked[k] == to.parked;
      assert k !in s.db.parked;
    }
  }

  lemma CommittedMoves(s: System, message: MessageId, db: Db, entries: seq<JobEntry>, snapshot: set<Scope>, now: Time, id: JobId, from: Place, to: Place)
    requires Inv(s) && FreshJobs(s, message, entries) && DispatchEffect(s, db, entries, snapshot, now) && IsAt(s.db, id, from) && IsAt(db, id, to)
    ensures (forall e | e in entries :: e.id != id) ==> to == from
    ensures forall e | e in entries && e.id == id :: if IsCoveredBy(snapshot, e.row.consumer) then IsParked(id, e.row, to, now) else to == Stored(e.row)
  {
    if forall e | e in entries :: e.id != id {
      DispatchedPlaces(s, db, entries, snapshot, now, id, from, to);
    }
    forall e | e in entries && e.id == id
      ensures if IsCoveredBy(snapshot, e.row.consumer) then IsParked(id, e.row, to, now) else to == Stored(e.row)
    {
      NewPlaces(s, message, db, entries, snapshot, now, e, to);
    }
  }

  lemma DispatchStepMoves(cfg: Config, s: System, step: Step, id: JobId, from: Place, to: Place)
    requires Inv(s) && step.Dispatch? && IsAt(s.db, id, from) && IsAt(Do(cfg, s, step).db, id, to)
    ensures Moves(cfg, s, step, id, from, to)
  {
    var message, entries, snapshot, now := step.message, step.entries, step.snapshot, step.now;
    if FreshJobs(s, message, entries) {
      DispatchCommitsIff(s, message, entries, snapshot, now);
    }
    if DispatchCommits(s, message, entries) {
      DispatchHasEffect(s, message, entries, snapshot, now);
      CommittedMoves(s, message, Do(cfg, s, step).db, entries, snapshot, now, id, from, to);
    } else {
      Unmoved(s.db, s.db, id, from, to);
    }
  }

  // ---------- drain ----------

  ghost predicate PagesDiffer(s: System) {
    forall tx | tx in s.drains :: DistinctSeqNos(s.drains[tx])
  }

  lemma {:induction false} RunKeepsPagesDiffer(cfg: Config, s: System, steps: seq<Step>)
    requires PagesDiffer(s)
    ensures PagesDiffer(Exec(cfg, s, steps))
    decreases |steps|
  {
    if steps != [] {
      var t := Do(cfg, s, steps[0]);
      assert PagesDiffer(t) by {
        if steps[0].BeginDrain? {
          var page := ReadDrainPage(s.db, steps[0].consumer, steps[0].pageSize);
          if page != [] { OldestRowsAreDistinct(ParkedOf(s.db, steps[0].consumer), steps[0].pageSize); }
        }
      }
      RunKeepsPagesDiffer(cfg, t, steps[1..]);
    }
  }

  lemma DrainStepMoves(cfg: Config, s: System, step: Step, id: JobId, from: Place, to: Place)
    requires Inv(s) && PagesDiffer(s) && step.CommitDrain? && IsAt(s.db, id, from) && IsAt(Do(cfg, s, step).db, id, to)
    ensures Moves(cfg, s, step, id, from, to)
  {
    var db := Do(cfg, s, step).db;
    if step.tx in s.drains {
      var page := s.drains[step.tx];
      DrainCommitsIffAllPresent(s, page, step.earliest, step.now);
      if DrainCommits(s, step.tx) {
        assert AllPresent(s.db, page);
        assert db == Drained(s, page, step.earliest, step.now).db;
        DrainedPlaces(s, page, step.earliest, step.now, id, from, to);
      } else {
        assert !AllPresent(s.db, page) && db == s.db;
        Unmoved(s.db, db, id, from, to);
      }
    } else {
      Unmoved(s.db, db, id, from, to);
    }
  }

  lemma DrainedPlaces(s: System, page: seq<ParkedEntry>, earliest: Time, now: Time, id: JobId, from: Place, to: Place)
    requires Inv(s) && PageIsParked(s, page) && IsAt(s.db, id, from) && IsAt(Drained(s, page, earliest, now).db, id, to)
    ensures if from.Away? && IsOnPage(page, id) then IsDrained(id, from.parked, to, earliest, now) else to == from
  {
    var t := Drained(s, page, earliest, now).db;
    DrainedJob(s, page, earliest, now, id);
    if IsOnPage(page, id) {
      var i :| 0 <= i < |page| && page[i].row.id == id && t.jobs[id] == DrainedRow(page[i].row, earliest, now);
      PageRowPlace(s, page, i, from);
    } else {
      RestPlaces(s.db, t, page, id, from, to);
    }
  }

  lemma PageRowPlace(s: System, page: seq<ParkedEntry>, i: nat, from: Place)
    requires ParkedAreLive(s) && ParkedOnce(s) && PageIsParked(s, page) && i < |page| && IsAt(s.db, page[i].row.id, from)
    ensures from == Away(page[i].row)
  {
    assert s.db.parked[page[i].seqNo] == page[i].row;
  }

  lemma RestPlaces(db: Db, t: Db, page: seq<ParkedEntry>, id: JobId, from: Place, to: Place)
    requires ParkedApart(db) && t.parked == db.parked - SeqNos(page) && !IsOnPage(page, id)
    requires forall i | 0 <= i < |page| :: page[i].seqNo in db.parked && db.parked[page[i].seqNo] == page[i].row
    requires (id in t.jobs <==> id in db.jobs) && (id in t.jobs ==> t.jobs[id] == db.jobs[id]) && IsAt(db, id, from) && IsAt(t, id, to)
    ensures to == from
  {
    forall k | k in db.parked && db.parked[k].id == id ensures k in t.parked && t.parked[k] == db.parked[k] { }
  }

  // ---------- the theorem ----------

  lemma ReachablePagesDiffer(cfg: Config, s: System)
    requires Reachable(cfg, s)
    ensures PagesDiffer(s)
  {
    var steps :| Exec(cfg, Init, steps) == s;
    RunKeepsPagesDiffer(cfg, Init, steps);
  }

  /**
    Every step of the protocol, from every reachable state, moves every job as its own small
    machine says: whether a transaction over the two tables commits, and what it writes, is
    decided by the places of the jobs it names.
   */
  lemma StepMoves(cfg: Config, s: System, step: Step, id: JobId, from: Place, to: Place)
    requires Reachable(cfg, s) && IsAt(s.db, id, from) && IsAt(Do(cfg, s, step).db, id, to)
    ensures Moves(cfg, s, step, id, from, to)
  {
    ReachableInv(cfg, s);
    if IsStatusStep(step) {
      StatusStepMoves(cfg, s, step, id, from, to);
    } else if step.RequeueAllDead? || step.DeleteDead? || step.DeleteAllDead? || step.PruneDelete? {
      BulkStepMoves(cfg, s, step, id, from, to);
    } else if step.Repark? {
      ReparkStepMoves(cfg, s, step.id, step.now, id, from, to);
    } else if step.Dispatch? {
      DispatchStepMoves(cfg, s, step, id, from, to);
    } else if step.CommitDrain? {
      ReachablePagesDiffer(cfg, s);
      DrainStepMoves(cfg, s, step, id, from, to);
    } else {
      IdleStepMoves(cfg, s, step, id, from, to);
    }
  }

  lemma IdleStepMoves(cfg: Config, s: System, step: Step, id: JobId, from: Place, to: Place)
    requires step.CreateMessage? || step.BeginDrain? || step.PauseScope? || step.ResumeScope? || step.PruneRead?
    requires ParkedApart(s.db) && IsAt(s.db, id, from) && IsAt(Do(cfg, s, step).db, id, to)
    ensures Moves(cfg, s, step, id, from, to)
  {
    Unmoved(s.db, Do(cfg, s, step).db, id, from, to);
  }

  // ---------- messages, pauses and reads ----------

  /** What a step does to the row of a message. */
  lemma MessageMoves(cfg: Config, s: System, step: Step, message: MessageId)
    requires Reachable(cfg, s)
    ensures var before, after := s.db.messages, Do(cfg, s, step).db.messages;
            match step
            case CreateMessage(m, now) =>
              if m == message && m !in s.usedMessages then message in after && after[message] == MessageRow(Acknowledged, now, now)
              else SameMessage(before, after, message)
            case Dispatch(m, entries, _, now) =>
              if m == message && DispatchCommits(s, m, entries) then
                message in after && after[message] == MessageRow(Dispatched, before[message].createdAt, now)
              else SameMessage(before, after, message)
            case PruneDelete(messages) =>
              if message in messages && messages <= s.pruneReads then message !in after else SameMessage(before, after, message)
            case _ => SameMessage(before, after, message)
  {
    ReachableInv(cfg, s);
    match step
    case Dispatch(m, entries, snapshot, now) =>
      if FreshJobs(s, m, entries) {
        DispatchCommitsIff(s, m, entries, snapshot, now);
        if DispatchCommits(s, m, entries) { DispatchHasEffect(s, m, entries, snapshot, now); }
      }
    case _ => OtherMessages(cfg, s, step);
  }

  predicate SameMessage(before: map<MessageId, MessageRow>, after: map<MessageId, MessageRow>, message: MessageId) {
    (message in before <==> message in after) && (message in before ==> before[message] == after[message])
  }

  lemma CommitFrames(s: System, tx: nat, earliest: Time, now: Time)
    ensures var t := DoCommit(s, tx, earliest, now).db; t.messages == s.db.messages && t.pauses == s.db.pauses
  {
  }

  lemma OtherMessages(cfg: Config, s: System, step: Step)
    requires !step.Dispatch?
    ensures !step.CreateMessage? && !step.PruneDelete? ==> Do(cfg, s, step).db.messages == s.db.messages
  {
    if step.CommitDrain? {
      CommitFrames(s, step.tx, step.earliest, step.now);
    } else if !step.CreateMessage? && !step.PruneDelete? {
      PlainMessages(cfg, s, step);
    }
  }

  lemma PlainMessages(cfg: Config, s: System, step: Step)
    requires !step.Dispatch? && !step.CommitDrain? && !step.CreateMessage? && !step.PruneDelete?
    ensures Do(cfg, s, step).db.messages == s.db.messages
  {
  }

  /** What a step does to the pauses: a request changes the scope it names and no step anything else. */
  lemma PausesMove(cfg: Config, s: System, step: Step, scope: Scope)
    ensures scope in Do(cfg, s, step).db.pauses <==>
              match step
              case PauseScope(p) => scope == p || scope in s.db.pauses
              case ResumeScope(p) => scope != p && scope in s.db.pauses
              case _ => scope in s.db.pauses
  {
    OtherPauses(cfg, s, step);
  }

  lemma OtherPauses(cfg: Config, s: System, step: Step)
    ensures !step.PauseScope? && !step.ResumeScope? ==> Do(cfg, s, step).db.pauses == s.db.pauses
  {
    if step.Dispatch? {
      DispatchKeepsPauses(s, step.message, step.entries, step.snapshot, step.now);
    } else if step.CommitDrain? {
      CommitFrames(s, step.tx, step.earliest, step.now);
    } else if !step.PauseScope? && !step.ResumeScope? {
      PlainPauses(cfg, s, step);
    }
  }

  lemma DispatchKeepsPauses(s: System, message: MessageId, entries: seq<JobEntry>, snapshot: set<Scope>, now: Time)
    ensures DoDispatch(s, message, entries, snapshot, now).db.pauses == s.db.pauses
  {
  }

  lemma PlainPauses(cfg: Config, s: System, step: Step)
    requires !step.Dispatch? && !step.CommitDrain? && !step.PauseScope? && !step.ResumeScope?
    ensures Do(cfg, s, step).db.pauses == s.db.pauses
  {
  }

  /** After a pause request exactly the consumers it covers are paused beside those that were. */
  lemma PauseCoversExactly(cfg: Config, s: System, scope: Scope, consumer: ConsumerId)
    ensures Paused(Do(cfg, s, PauseScope(scope)).db, consumer) <==> Covers(scope, consumer) || Paused(s.db, consumer)
  {
    PausesMove(cfg, s, PauseScope(scope), Global);
    PausesMove(cfg, s, PauseScope(scope), Consumer(consumer));
  }

  /** After a resume request a consumer is paused exactly when another scope covers it. */
  lemma ResumeUncoversExactly(cfg: Config, s: System, scope: Scope, consumer: ConsumerId)
    ensures Paused(Do(cfg, s, ResumeScope(scope)).db, consumer) <==> exists p :: p in s.db.pauses && p != scope && Covers(p, consumer)
  {
    PausesMove(cfg, s, ResumeScope(scope), Global);
    PausesMove(cfg, s, ResumeScope(scope), Consumer(consumer));
    assert Covers(Global, consumer) && Covers(Consumer(consumer), consumer);
    assert forall p | Covers(p, consumer) :: p == Global || p == Consumer(consumer);
  }

  // ---------- an attempt ----------

  /**
    What one delivery attempt of job `id` with the given copy does to job `j`. A job that can not
    be handed out is parked if it waits for a paused consumer, and is left alone otherwise.
   */
  ghost predicate AttemptMoves(cfg: Config, s: System, id: JobId, copyRetries: nat, timeout: nat, delivered: bool, now: Time, later: Time,
                               j: JobId, from: Place, to: Place)
    requires ValidConfig(cfg)
  {
    if j != id || !IsStored(from, Queued) then to == from
    else if IsCoveredBy(s.db.pauses, from.job.consumer) then IsParked(id, from.job, to, later)
    else if from.job.retries != copyRetries then to == from
    else
      var job := from.job.(incrementalTimeout := timeout);
      to == if delivered then Stored(Changed(job, Delivered, later))
            else if copyRetries >= cfg.maxRetry then Stored(Changed(job, Dead, later))
            else Stored(Changed(job, Queued, later).(retries := copyRetries + 1, earliestNextAttemptAt := later + EarliestDelta(copyRetries + 1, cfg.backoffs)))
  }

  lemma HandedOutIff(cfg: Config, s: System, id: JobId, copyRetries: nat, timeout: nat, now: Time, from: Place)
    requires IsAt(s.db, id, from)
    ensures MarkJobInflight(s.db, id, copyRetries, timeout, now).Some?
            <==> IsStored(from, Queued) && from.job.retries == copyRetries && !IsCoveredBy(s.db.pauses, from.job.consumer)
  {
    if from.Stored? { CoveredIff(s.db.pauses, from.job.consumer); }
  }

  lemma AttemptSteps(cfg: Config, s: System, id: JobId, copyRetries: nat, timeout: nat, delivered: bool, now: Time, later: Time, j: JobId, from: Place, to: Place)
    requires ValidConfig(cfg) && Reachable(cfg, s) && IsAt(s.db, j, from)
    requires IsAt(Exec(cfg, s, DeliverySteps(cfg, s, id, copyRetries, timeout, delivered, now, later)).db, j, to)
    ensures AttemptMoves(cfg, s, id, copyRetries, timeout, delivered, now, later, j, from, to)
  {
    var steps := DeliverySteps(cfg, s, id, copyRetries, timeout, delivered, now, later);
    var own := PlaceExists(s.db, id);
    HandedOutIff(cfg, s, id, copyRetries, timeout, now, own);
    if j == id { PlaceIsUnique(cfg, s, id, own, from); }
    if MarkJobInflight(s.db, id, copyRetries, timeout, now) == None {
      ExecOne(cfg, s, steps[0]);
      StepMoves(cfg, s, steps[0], j, from, to);
    } else {
      assert steps == [steps[0], steps[1]];
      ExecTwo(cfg, s, steps[0], steps[1]);
      var u := Do(cfg, s, steps[0]);
      ReachableStep(cfg, s, steps[0]);
      var mid := PlaceExists(u.db, j);
      StepMoves(cfg, s, steps[0], j, from, mid);
      StepMoves(cfg, u, steps[1], j, mid, to);
    }
  }

  /** A push job that a drain moved is not due for a retry before its lease ends, and a pull job may be asked for at once. */
  lemma DrainedIsLeased(cfg: Config, db: Db, id: JobId, parked: ParkedRow, now: Time, later: Time, to: Place)
    requires IsDrained(id, parked, to, DrainedUntil(cfg, parked.consumer, now), now) && IsAt(db, id, to)
    ensures parked.consumer !in cfg.pull ==> (DueForAttempt(cfg, db, id, later) <==> later >= now + cfg.lease + cfg.rationalDelay)
    ensures parked.consumer in cfg.pull ==> to.job.earliestNextAttemptAt == now
  {
  }

  /** A job put back is due for the next attempt exactly when its backoff and the pass's own delay are over. */
  lemma PutBackIsDue(cfg: Config, s: System, id: JobId, copyRetries: nat, delta: nat, now: Time, later: Time)
    requires HasStatus(s.db, id, Inflight) && s.db.jobs[id].consumer !in cfg.pull
    ensures DueForAttempt(cfg, Do(cfg, s, Retry(id, copyRetries, delta, now)).db, id, later) <==> later >= now + delta + cfg.rationalDelay
  {
  }

  /** A job handed out is recovered no earlier than the stop timeout and the pass's own delay after. */
  lemma HandedOutIsStale(cfg: Config, s: System, id: JobId, timeout: nat, now: Time, later: Time)
    requires HasStatus(s.db, id, Queued) && s.db.jobs[id].consumer !in cfg.pull && !Paused(s.db, s.db.jobs[id].consumer)
    ensures StaleInflight(cfg, Do(cfg, s, HandOut(id, s.db.jobs[id].retries, timeout, now)).db, id, later)
            <==> later >= now + cfg.stopTimeout + cfg.rationalDelay
  {
  }

  /** A dispatch refuses jobs of another message and jobs that are marked as parked. */
  lemma DispatchRefusesForeign(db: Db, message: MessageId, active: seq<JobEntry>, parked: seq<JobEntry>, now: Time, e: JobEntry)
    requires (e in active || e in parked) && (e.row.message != message || e.row.status == JobStatus.Parked)
    ensures DispatchMessageWithParking(db, message, active, parked, now) == None
  {
    if e in active {
      var i :| 0 <= i < |active| && active[i] == e;
    } else {
      var i :| 0 <= i < |parked| && parked[i] == e;
    }
  }

  lemma DeliveredIff(s: System, message: MessageId)
    requires Inv(s)
    ensures CompletelyDelivered(s.db, message) <==> IsDelivered(s.db, message)
  {
    if IsDelivered(s.db, message) {
      forall id | id in s.db.jobs && s.db.jobs[id].message == message ensures s.db.jobs[id].status == Delivered {
        assert IsAt(s.db, id, Stored(s.db.jobs[id]));
      }
      forall k | k in s.db.parked ensures s.db.parked[k].message != message {
        assert IsAt(s.db, s.db.parked[k].id, Away(s.db.parked[k]));
      }
    }
  }

  /** What a step does to the open drains: one reads its page when it begins and ends with its commit. */
  lemma DrainsMove(cfg: Config, s: System, step: Step)
    ensures Do(cfg, s, step).drains ==
              match step
              case BeginDrain(tx, consumer, pageSize) => s.drains[tx := ReadDrainPage(s.db, consumer, pageSize)]
              case CommitDrain(tx, _, _) => s.drains - {tx}
              case _ => s.drains
  {
  }

  lemma OtherPruneReads(cfg: Config, s: System, step: Step)
    requires !step.PruneRead?
    ensures Do(cfg, s, step).pruneReads == s.pruneReads
  {
  }

  /** What a step does to the reads of the prune: it reads the messages that are delivered. */
  lemma PruneReadsMove(cfg: Config, s: System, step: Step)
    requires Reachable(cfg, s)
    ensures Do(cfg, s, step).pruneReads ==
              if step.PruneRead? && IsDelivered(s.db, step.message) then s.pruneReads + {step.message} else s.pruneReads
  {
    if step.PruneRead? {
      ReachableInv(cfg, s);
      DeliveredIff(s, step.message);
    } else {
      OtherPruneReads(cfg, s, step);
    }
  }

  /** The message is dispatched, none of its jobs is parked and all are DELIVERED. */
  ghost predicate IsDelivered(db: Db, message: MessageId) {
    && message in db.messages && db.messages[message].status == Dispatched
    && forall id, place | IsAt(db, id, place) && !place.Nowhere? ::
         if place.Stored? then place.job.message == message ==> place.job.status == Delivered else place.parked.message != message
  }
}
