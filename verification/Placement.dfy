/**
  Every job is in exactly one place: in every state of every run, each (message, consumer)
  job that a dispatch created has exactly one row across `job` and `job_parking`, until a
  dead-delete or a prune removes it.
 */
module Placement {
  import opened Collections
  import opened Types
  import opened Transactions
  import opened Protocol

  predicate Live(s: System, id: JobId) {
    id in s.created && id !in s.removed
  }

  function PairOfParked(row: ParkedRow): Pair {
    Pair(row.message, row.consumer)
  }

  ghost predicate JobsAreLive(s: System) {
    forall id | id in s.db.jobs :: Live(s, id) && s.created[id] == PairOf(s.db.jobs[id]) && s.db.jobs[id].status != Parked
  }

  ghost predicate ParkedAreLive(s: System) {
    forall k | k in s.db.parked ::
      && k < s.db.nextSeq && Live(s, s.db.parked[k].id) && s.created[s.db.parked[k].id] == PairOfParked(s.db.parked[k])
      && s.db.parked[k].id !in s.db.jobs
  }

  ghost predicate ParkedOnce(s: System) {
    forall k, j | k in s.db.parked && j in s.db.parked && s.db.parked[k].id == s.db.parked[j].id :: k == j
  }

  ghost predicate ParkedSomewhere(s: System, id: JobId) {
    exists k :: k in s.db.parked && s.db.parked[k].id == id
  }

  ghost predicate LiveAreStored(s: System) {
    forall id | Live(s, id) :: id in s.db.jobs || ParkedSomewhere(s, id)
  }

  ghost predicate PairsAreUnique(s: System) {
    && s.removed <= s.created.Keys
    && forall a, b | a in s.created && b in s.created && s.created[a] == s.created[b] :: a == b
  }

  /** A message that has jobs is past its single dispatch, and stays as long as it has live jobs. */
  ghost predicate MessagesAreDispatched(s: System) {
    && s.db.messages.Keys <= s.usedMessages
    && (forall id | id in s.created ::
          && s.created[id].message in s.usedMessages
          && (s.created[id].message in s.db.messages ==> s.db.messages[s.created[id].message].status == Dispatched))
    && forall id | Live(s, id) :: s.created[id].message in s.db.messages
  }

  /** A parked row never changes, so a page read earlier still describes the rows that are left of it. */
  ghost predicate DrainReadsAgree(s: System) {
    forall tx, i | tx in s.drains && 0 <= i < |s.drains[tx]| ::
      var e := s.drains[tx][i];
      e.seqNo < s.db.nextSeq && (e.seqNo in s.db.parked ==> s.db.parked[e.seqNo] == e.row)
  }

  ghost predicate PruneReadsAgree(s: System) {
    forall m | m in s.pruneReads :: m in s.usedMessages && (m in s.db.messages ==> CompletelyDelivered(s.db, m))
  }

  ghost predicate ParkedWerePaused(s: System) {
    && s.db.pauses <= s.believedPaused
    && forall k | k in s.db.parked :: Covered(s.believedPaused, s.db.parked[k].consumer)
  }

  ghost predicate Inv(s: System) {
    && JobsAreLive(s) && ParkedAreLive(s) && ParkedOnce(s) && LiveAreStored(s) && PairsAreUnique(s)
    && MessagesAreDispatched(s) && DrainReadsAgree(s) && PruneReadsAgree(s) && ParkedWerePaused(s)
  }

  // ---------- what each kind of step keeps ----------

  /** Rows may change status and counters as long as a DELIVERED row is left alone. */
  ghost predicate Rewrites(old_: map<JobId, JobRow>, new_: map<JobId, JobRow>) {
    && new_.Keys == old_.Keys
    && forall id | id in old_ ::
         || new_[id] == old_[id]
         || (old_[id].status != Delivered && new_[id].status != Parked && PairOf(new_[id]) == PairOf(old_[id]))
  }

  lemma RewriteKeepsInv(s: System, jobs: map<JobId, JobRow>)
    requires Inv(s) && Rewrites(s.db.jobs, jobs)
    ensures Inv(s.(db := s.db.(jobs := jobs)))
  {
    var t := s.(db := s.db.(jobs := jobs));
    forall m | m in s.pruneReads && m in t.db.messages
      ensures CompletelyDelivered(t.db, m)
    {
      assert CompletelyDelivered(s.db, m);
    }
    assert LiveAreStored(t) by {
      forall id | Live(t, id) ensures id in t.db.jobs || ParkedSomewhere(t, id) {
        assert Live(s, id);
        if id !in s.db.jobs { var k :| k in s.db.parked && s.db.parked[k].id == id; assert k in t.db.parked; }
      }
    }
  }

  lemma DeleteKeepsInv(s: System, gone: set<JobId>)
    requires Inv(s) && gone <= s.db.jobs.Keys
    ensures Inv(s.(db := s.db.(jobs := s.db.jobs - gone), removed := s.removed + gone))
  {
    var t := s.(db := s.db.(jobs := s.db.jobs - gone), removed := s.removed + gone);
    forall m | m in s.pruneReads && m in t.db.messages
      ensures CompletelyDelivered(t.db, m)
    {
      assert CompletelyDelivered(s.db, m);
    }
    forall id | Live(t, id) ensures id in t.db.jobs || ParkedSomewhere(t, id) {
      assert Live(s, id);
      if id !in s.db.jobs { var k :| k in s.db.parked && s.db.parked[k].id == id; assert k in t.db.parked; }
    }
  }

  lemma PruneKeepsInv(s: System, messages: set<MessageId>)
    requires Inv(s) && messages <= s.pruneReads
    ensures Inv(s.(db := DeleteMessagesAndJobs(s.db, messages), removed := s.removed + JobsOf(s.db, messages)))
  {
    var gone := JobsOf(s.db, messages);
    DeleteKeepsInv(s, gone);
    var u := s.(db := s.db.(jobs := s.db.jobs - gone), removed := s.removed + gone);
    var t := u.(db := u.db.(messages := u.db.messages - messages));
    forall id | Live(t, id) ensures (id in t.db.jobs || ParkedSomewhere(t, id)) && t.created[id].message in t.db.messages {
      assert Live(u, id);
      if id !in u.db.jobs {
        var k :| k in u.db.parked && u.db.parked[k].id == id;
        assert k in t.db.parked;
      }
    }
    forall m | m in t.pruneReads && m in t.db.messages ensures CompletelyDelivered(t.db, m) {
      assert CompletelyDelivered(u.db, m);
    }
  }

  /** Moving one QUEUED job to a fresh `seq` of the parking table. */
  function Moved(s: System, id: JobId, row: ParkedRow): System {
    s.(db := s.db.(jobs := s.db.jobs - {id}, parked := s.db.parked[s.db.nextSeq := row], nextSeq := s.db.nextSeq + 1))
  }

  lemma MoveKeepsRows(s: System, id: JobId, row: ParkedRow)
    requires JobsAreLive(s) && ParkedAreLive(s) && ParkedOnce(s) && ParkedWerePaused(s)
    requires HasStatus(s.db, id, Queued) && row.id == id && PairOfParked(row) == PairOf(s.db.jobs[id]) && Covered(s.believedPaused, row.consumer)
    ensures var t := Moved(s, id, row); JobsAreLive(t) && ParkedAreLive(t) && ParkedOnce(t) && ParkedWerePaused(t)
  {
    assert s.db.nextSeq !in s.db.parked;
  }

  lemma MoveKeepsReads(s: System, id: JobId, row: ParkedRow)
    requires ParkedAreLive(s) && MessagesAreDispatched(s) && DrainReadsAgree(s) && PruneReadsAgree(s)
    requires HasStatus(s.db, id, Queued) && PairOfParked(row) == PairOf(s.db.jobs[id])
    ensures var t := Moved(s, id, row); MessagesAreDispatched(t) && DrainReadsAgree(t) && PruneReadsAgree(t)
  {
    var t := Moved(s, id, row);
    assert s.db.nextSeq !in s.db.parked;
    forall m | m in t.pruneReads && m in t.db.messages ensures CompletelyDelivered(t.db, m) {
      assert CompletelyDelivered(s.db, m);
    }
  }

  lemma MoveKeepsStored(s: System, id: JobId, row: ParkedRow)
    requires ParkedAreLive(s) && LiveAreStored(s) && row.id == id
    ensures LiveAreStored(Moved(s, id, row))
  {
    var t := Moved(s, id, row);
    var k := s.db.nextSeq;
    assert k !in s.db.parked;
    forall i | Live(t, i) ensures i in t.db.jobs || ParkedSomewhere(t, i) {
      assert Live(s, i);
      if i == id {
        assert t.db.parked[k].id == id;
      } else if i !in s.db.jobs {
        var j :| j in s.db.parked && s.db.parked[j].id == i;
        assert j in t.db.parked && t.db.parked[j].id == i;
      }
    }
  }

  lemma MoveKeepsInv(s: System, id: JobId, row: ParkedRow)
    requires Inv(s) && HasStatus(s.db, id, Queued) && row.id == id && PairOfParked(row) == PairOf(s.db.jobs[id])
    requires Covered(s.believedPaused, row.consumer)
    ensures Inv(Moved(s, id, row))
  {
    MoveKeepsRows(s, id, row);
    MoveKeepsReads(s, id, row);
    MoveKeepsStored(s, id, row);
  }

  lemma ReparkIsMove(s: System, id: JobId, now: Time)
    requires ReparkQueuedJob(s.db, id, now).Some?
    ensures WithDb(s, ReparkQueuedJob(s.db, id, now)) == Moved(s, id, ParkedFrom(JobEntry(id, s.db.jobs[id]), now))
  {
    var row := ParkedFrom(JobEntry(id, s.db.jobs[id]), now);
    assert RowNumbered(s.db.nextSeq, [row], s.db.nextSeq) == row;
  }

  lemma ReparkKeepsInv(s: System, id: JobId, now: Time)
    requires Inv(s)
    ensures Inv(WithDb(s, ReparkQueuedJob(s.db, id, now)))
  {
    if ReparkQueuedJob(s.db, id, now).Some? {
      ReparkIsMove(s, id, now);
      MoveKeepsInv(s, id, ParkedFrom(JobEntry(id, s.db.jobs[id]), now));
    }
  }

  // ---------- draining ----------

  ghost predicate DistinctSeqNos(page: seq<ParkedEntry>) {
    forall i, j | 0 <= i < j < |page| :: page[i].seqNo != page[j].seqNo
  }

  /** A page holds no row twice, and some row if there is one. */
  lemma {:induction false} OldestRowsAreDistinct(rows: map<nat, ParkedRow>, limit: nat)
    ensures DistinctSeqNos(OldestRows(rows, limit))
    ensures limit > 0 && rows != map[] ==> OldestRows(rows, limit) != []
    decreases limit
  {
    if limit > 0 && rows != map[] {
      OldestRowsAreDistinct(rows - {Oldest(rows)}, limit - 1);
    }
  }

  ghost predicate AllPresent(db: Db, page: seq<ParkedEntry>) {
    forall i | 0 <= i < |page| :: page[i].seqNo in db.parked
  }

  lemma SeqNosOfInit(page: seq<ParkedEntry>)
    requires page != []
    ensures var n := |page| - 1; SeqNos(page) == SeqNos(page[..n]) + {page[n].seqNo}
  {
    var n := |page| - 1;
    forall x | x in SeqNos(page) ensures x in SeqNos(page[..n]) + {page[n].seqNo} {
      var i :| 0 <= i < |page| && page[i].seqNo == x;
      if i < n { assert page[..n][i].seqNo == x; }
    }
    forall x | x in SeqNos(page[..n]) ensures x in SeqNos(page) {
      var i :| 0 <= i < n && page[..n][i].seqNo == x;
      assert page[i].seqNo == x;
    }
  }

  lemma DistinctInit(page: seq<ParkedEntry>)
    requires page != []
    ensures var n := |page| - 1; DistinctSeqNos(page) <==> DistinctSeqNos(page[..n]) && page[n].seqNo !in SeqNos(page[..n])
  {
    var n := |page| - 1;
    if page[n].seqNo in SeqNos(page[..n]) {
      var i :| 0 <= i < n && page[..n][i].seqNo == page[n].seqNo;
      assert page[i].seqNo == page[n].seqNo;
    } else {
      forall i | 0 <= i < n ensures page[i].seqNo != page[n].seqNo {
        assert page[..n][i].seqNo in SeqNos(page[..n]);
      }
      assert forall i, j | 0 <= i < j < n :: page[..n][i].seqNo != page[..n][j].seqNo <==> page[i].seqNo != page[j].seqNo;
    }
  }

  lemma {:induction false} SeqNosSize(page: seq<ParkedEntry>)
    ensures |SeqNos(page)| <= |page|
    ensures |SeqNos(page)| == |page| <==> DistinctSeqNos(page)
  {
    if page == [] {
      assert SeqNos(page) == {};
    } else {
      SeqNosSize(page[..|page| - 1]);
      SeqNosOfInit(page);
      DistinctInit(page);
    }
  }

  /** The exact row count of the delete means: every row of the page is still parked, and none is named twice. */
  lemma ExactDelete(db: Db, page: seq<ParkedEntry>)
    ensures |SeqNos(page) * db.parked.Keys| == |page| <==> AllPresent(db, page) && DistinctSeqNos(page)
  {
    SeqNosSize(page);
    var hit := SeqNos(page) * db.parked.Keys;
    if AllPresent(db, page) {
      assert hit == SeqNos(page);
    } else {
      var i :| 0 <= i < |page| && page[i].seqNo !in db.parked;
      assert page[i].seqNo in SeqNos(page) - hit;
      assert hit < SeqNos(page);
      SmallerSubset(hit, SeqNos(page));
    }
  }

  /** The state after the rows of a page left the parking table and came back as QUEUED jobs. */
  function Drained(s: System, page: seq<ParkedEntry>, earliest: Time, now: Time): System
    requires forall i, j | 0 <= i < j < |page| :: page[i].row.id != page[j].row.id
  {
    s.(db := s.db.(
      parked := s.db.parked - SeqNos(page),
      jobs := s.db.jobs + ById(DrainedEntries(page, earliest, now))))
  }

  lemma PageIdsAreNew(s: System, page: seq<ParkedEntry>)
    requires Inv(s) && AllPresent(s.db, page) && DistinctSeqNos(page)
    requires forall i | 0 <= i < |page| :: s.db.parked[page[i].seqNo] == page[i].row
    ensures forall i | 0 <= i < |page| :: page[i].row.id !in s.db.jobs && page[i].row.id in s.created
    ensures forall i, j | 0 <= i < j < |page| :: page[i].row.id != page[j].row.id
  {
  }

  lemma PageCanBeInserted(s: System, page: seq<ParkedEntry>, earliest: Time, now: Time)
    requires Inv(s) && AllPresent(s.db, page) && DistinctSeqNos(page)
    requires forall i | 0 <= i < |page| :: s.db.parked[page[i].seqNo] == page[i].row
    ensures CanInsertJobs(s.db.(parked := s.db.parked - SeqNos(page)), DrainedEntries(page, earliest, now))
  {
    var entries := DrainedEntries(page, earliest, now);
    PageIdsAreNew(s, page);
    forall i, id | 0 <= i < |entries| && id in s.db.jobs
      ensures !SamePair(s.db.jobs[id].message, s.db.jobs[id].consumer, entries[i].row.message, entries[i].row.consumer)
    {
      assert s.created[id] != s.created[page[i].row.id];
    }
    forall i, j | 0 <= i < j < |page|
      ensures !SamePair(entries[i].row.message, entries[i].row.consumer, entries[j].row.message, entries[j].row.consumer)
    {
      assert s.created[page[i].row.id] != s.created[page[j].row.id];
    }
  }

  /** Given the invariant, a drain commits exactly when every row it read is still parked (and listed once). */
  lemma DrainCommitsIffAllPresent(s: System, page: seq<ParkedEntry>, earliest: Time, now: Time)
    requires Inv(s)
    requires forall i | 0 <= i < |page| :: page[i].seqNo in s.db.parked ==> s.db.parked[page[i].seqNo] == page[i].row
    ensures CommitDrainPage(s.db, page, earliest, now).Some? <==> AllPresent(s.db, page) && DistinctSeqNos(page)
    ensures AllPresent(s.db, page) && DistinctSeqNos(page) ==>
              && (forall i, j | 0 <= i < j < |page| :: page[i].row.id != page[j].row.id)
              && WithDb(s, CommitDrainPage(s.db, page, earliest, now)) == Drained(s, page, earliest, now)
  {
    ExactDelete(s.db, page);
    if AllPresent(s.db, page) && DistinctSeqNos(page) {
      PageIdsAreNew(s, page);
      PageCanBeInserted(s, page, earliest, now);
    }
  }

  ghost predicate PageIsParked(s: System, page: seq<ParkedEntry>) {
    && AllPresent(s.db, page)
    && (forall i | 0 <= i < |page| :: s.db.parked[page[i].seqNo] == page[i].row)
    && (forall i, j | 0 <= i < j < |page| :: page[i].row.id != page[j].row.id)
  }

  ghost predicate FromPage(page: seq<ParkedEntry>, id: JobId) {
    exists i :: 0 <= i < |page| && page[i].row.id == id
  }

  /** A drained job comes from the page; every other job is as it was. */
  lemma DrainedJob(s: System, page: seq<ParkedEntry>, earliest: Time, now: Time, id: JobId)
    requires PageIsParked(s, page) && Inv(s)
    ensures var jobs := Drained(s, page, earliest, now).db.jobs;
            && (FromPage(page, id) ==> id in jobs && exists i :: 0 <= i < |page| && page[i].row.id == id && jobs[id] == DrainedRow(page[i].row, earliest, now))
            && (!FromPage(page, id) ==> (id in jobs <==> id in s.db.jobs) && (id in jobs ==> jobs[id] == s.db.jobs[id]))
  {
    var entries := DrainedEntries(page, earliest, now);
    assert forall i | 0 <= i < |entries| :: entries[i].id == page[i].row.id;
  }

  lemma DrainKeepsRows(s: System, page: seq<ParkedEntry>, earliest: Time, now: Time)
    requires Inv(s) && PageIsParked(s, page)
    ensures var t := Drained(s, page, earliest, now); JobsAreLive(t) && ParkedAreLive(t)
  {
    var t := Drained(s, page, earliest, now);
    forall id | id in t.db.jobs
      ensures Live(t, id) && t.created[id] == PairOf(t.db.jobs[id]) && t.db.jobs[id].status != Parked
    {
      DrainedJob(s, page, earliest, now, id);
    }
    forall k | k in t.db.parked ensures t.db.parked[k].id !in t.db.jobs {
      var id := t.db.parked[k].id;
      DrainedJob(s, page, earliest, now, id);
      assert forall i | 0 <= i < |page| :: page[i].seqNo in SeqNos(page);
    }
  }

  lemma DrainKeepsStored(s: System, page: seq<ParkedEntry>, earliest: Time, now: Time)
    requires Inv(s) && PageIsParked(s, page)
    ensures LiveAreStored(Drained(s, page, earliest, now))
  {
    var t := Drained(s, page, earliest, now);
    forall id | Live(t, id) ensures id in t.db.jobs || ParkedSomewhere(t, id) {
      assert Live(s, id);
      DrainedJob(s, page, earliest, now, id);
      if id !in s.db.jobs && !FromPage(page, id) {
        var k :| k in s.db.parked && s.db.parked[k].id == id;
        assert forall n | 0 <= n < |page| :: page[n].seqNo != k;
        assert t.db.parked[k].id == id;
      }
    }
  }

  lemma DrainKeepsPruneReads(s: System, page: seq<ParkedEntry>, earliest: Time, now: Time)
    requires Inv(s) && PageIsParked(s, page)
    ensures PruneReadsAgree(Drained(s, page, earliest, now))
  {
    var t := Drained(s, page, earliest, now);
    forall m | m in t.pruneReads && m in t.db.messages ensures CompletelyDelivered(t.db, m) {
      assert CompletelyDelivered(s.db, m);
      forall id | id in t.db.jobs && t.db.jobs[id].message == m ensures t.db.jobs[id].status == Delivered {
        DrainedJob(s, page, earliest, now, id);
      }
    }
  }

  lemma DrainKeepsInv(s: System, page: seq<ParkedEntry>, earliest: Time, now: Time)
    requires Inv(s) && PageIsParked(s, page)
    ensures Inv(Drained(s, page, earliest, now))
  {
    DrainKeepsRows(s, page, earliest, now);
    DrainKeepsStored(s, page, earliest, now);
    DrainKeepsPruneReads(s, page, earliest, now);
  }

  // ---------- dispatch ----------

  /** What a committed dispatch did to the job table, row by row. */
  ghost predicate JobsEffect(s: System, db: Db, entries: seq<JobEntry>, snapshot: set<Scope>) {
    && (forall id | id in db.jobs ::
          || (id in s.db.jobs && db.jobs[id] == s.db.jobs[id])
          || (exists e :: e in entries && e.id == id && db.jobs[id] == e.row.(retries := 0) && !Covered(snapshot, e.row.consumer)))
    && (forall id | id in s.db.jobs :: id in db.jobs && db.jobs[id] == s.db.jobs[id])
    && (forall e | e in entries && !Covered(snapshot, e.row.consumer) :: e.id in db.jobs)
  }

  /** ... and to the parking table. */
  ghost predicate ParkingEffect(s: System, db: Db, entries: seq<JobEntry>, snapshot: set<Scope>, now: Time) {
    && s.db.nextSeq <= db.nextSeq
    && (forall k | k in db.parked ::
          || (k in s.db.parked && db.parked[k] == s.db.parked[k])
          || (s.db.nextSeq <= k < db.nextSeq && exists e :: e in entries && db.parked[k] == ParkedFrom(e, now) && Covered(snapshot, e.row.consumer)))
    && (forall k | k in s.db.parked :: k in db.parked && db.parked[k] == s.db.parked[k])
    && (forall k, j | k in db.parked && j in db.parked && db.parked[k].id == db.parked[j].id :: k == j)
    && (forall e | e in entries && Covered(snapshot, e.row.consumer) :: exists k :: k in db.parked && db.parked[k].id == e.id)
  }

  ghost predicate DispatchEffect(s: System, db: Db, entries: seq<JobEntry>, snapshot: set<Scope>, now: Time) {
    JobsEffect(s, db, entries, snapshot) && ParkingEffect(s, db, entries, snapshot, now) && db.pauses == s.db.pauses
  }

  lemma InsertJobsEffect(db: Db, active: seq<JobEntry>)
    requires InsertJobs(db, FreshRows(active)).Some? && forall i | 0 <= i < |active| :: active[i].id !in db.jobs
    ensures var jobs := InsertJobs(db, FreshRows(active)).value.jobs;
            && (forall id | id in jobs ::
                  || (id in db.jobs && jobs[id] == db.jobs[id])
                  || (exists e :: e in active && e.id == id && jobs[id] == e.row.(retries := 0)))
            && (forall id | id in db.jobs :: id in jobs && jobs[id] == db.jobs[id])
            && (forall e | e in active :: e.id in jobs)
  {
    var rows := FreshRows(active);
    var jobs := InsertJobs(db, rows).value.jobs;
    forall id | id in jobs
      ensures (id in db.jobs && jobs[id] == db.jobs[id]) || (exists e :: e in active && e.id == id && jobs[id] == e.row.(retries := 0))
    {
      if id in ById(rows) {
        var i :| 0 <= i < |rows| && rows[i].id == id;
        assert active[i] in active && active[i].id == id;
      }
    }
    forall e | e in active ensures e.id in jobs {
      var i :| 0 <= i < |active| && active[i] == e;
      assert rows[i].id == e.id;
    }
  }

  /** The row a new parking number stands for. */
  lemma ParkedRowAt(db: Db, parked: seq<JobEntry>, now: Time, i: nat)
    requires InsertParked(db, ParkedRows(parked, now)).Some? && i < |parked|
    ensures var db' := InsertParked(db, ParkedRows(parked, now)).value;
            db.nextSeq + i in db'.parked && db'.parked[db.nextSeq + i] == ParkedFrom(parked[i], now)
  {
    var rows := ParkedRows(parked, now);
    assert RowNumbered(db.nextSeq, rows, db.nextSeq + i) == rows[i];
  }

  lemma InsertParkedKeeps(db: Db, rows: seq<ParkedRow>)
    requires InsertParked(db, rows).Some? && forall k | k in db.parked :: k < db.nextSeq
    ensures var db' := InsertParked(db, rows).value;
            && db'.nextSeq == db.nextSeq + |rows|
            && (forall k | k in db.parked :: k in db'.parked && db'.parked[k] == db.parked[k])
            && (forall k | k in db'.parked :: k in db.parked || db.nextSeq <= k < db'.nextSeq)
  {
  }

  lemma InsertParkedOnce(db: Db, parked: seq<JobEntry>, now: Time, k: nat, j: nat)
    requires InsertParked(db, ParkedRows(parked, now)).Some?
    requires forall a | a in db.parked :: a < db.nextSeq
    requires forall a, b | a in db.parked && b in db.parked && db.parked[a].id == db.parked[b].id :: a == b
    requires var db' := InsertParked(db, ParkedRows(parked, now)).value; k in db'.parked && j in db'.parked && db'.parked[k].id == db'.parked[j].id
    ensures k == j
  {
    var rows := ParkedRows(parked, now);
    InsertParkedKeeps(db, rows);
    if k !in db.parked { ParkedRowAt(db, parked, now, k - db.nextSeq); assert rows[k - db.nextSeq].id == parked[k - db.nextSeq].id; }
    if j !in db.parked { ParkedRowAt(db, parked, now, j - db.nextSeq); assert rows[j - db.nextSeq].id == parked[j - db.nextSeq].id; }
  }

  lemma InsertParkedEffect(db: Db, parked: seq<JobEntry>, now: Time)
    requires InsertParked(db, ParkedRows(parked, now)).Some?
    requires forall k | k in db.parked :: k < db.nextSeq
    requires forall k, j | k in db.parked && j in db.parked && db.parked[k].id == db.parked[j].id :: k == j
    ensures var db' := InsertParked(db, ParkedRows(parked, now)).value;
            && db.nextSeq <= db'.nextSeq
            && (forall k | k in db'.parked ::
                  || (k in db.parked && db'.parked[k] == db.parked[k])
                  || (db.nextSeq <= k < db'.nextSeq && exists e :: e in parked && db'.parked[k] == ParkedFrom(e, now)))
            && (forall k | k in db.parked :: k in db'.parked && db'.parked[k] == db.parked[k])
            && (forall k, j | k in db'.parked && j in db'.parked && db'.parked[k].id == db'.parked[j].id :: k == j)
            && (forall e | e in parked :: exists k :: k in db'.parked && db'.parked[k].id == e.id)
  {
    var db' := InsertParked(db, ParkedRows(parked, now)).value;
    InsertParkedKeeps(db, ParkedRows(parked, now));
    forall k | db.nextSeq <= k < db'.nextSeq ensures exists e :: e in parked && db'.parked[k] == ParkedFrom(e, now) {
      ParkedRowAt(db, parked, now, k - db.nextSeq);
      assert parked[k - db.nextSeq] in parked;
    }
    forall e | e in parked ensures exists k :: k in db'.parked && db'.parked[k].id == e.id {
      var i :| 0 <= i < |parked| && parked[i] == e;
      ParkedRowAt(db, parked, now, i);
    }
    forall k, j | k in db'.parked && j in db'.parked && db'.parked[k].id == db'.parked[j].id ensures k == j {
      InsertParkedOnce(db, parked, now, k, j);
    }
  }

  lemma DispatchHasEffect(s: System, message: MessageId, entries: seq<JobEntry>, snapshot: set<Scope>, now: Time)
    requires Inv(s) && FreshJobs(s, message, entries)
    requires DispatchMessageWithParking(s.db, message, Split(snapshot, entries, false), Split(snapshot, entries, true), now).Some?
    ensures var db := DispatchMessageWithParking(s.db, message, Split(snapshot, entries, false), Split(snapshot, entries, true), now).value;
            && DispatchEffect(s, db, entries, snapshot, now)
            && message in s.db.messages && s.db.messages[message].status == Acknowledged
            && db.messages == s.db.messages[message := s.db.messages[message].(status := Dispatched, outboxedAt := now)]
  {
    var active, parked := Split(snapshot, entries, false), Split(snapshot, entries, true);
    forall i | 0 <= i < |active| ensures active[i].id !in s.db.jobs { assert active[i] in active; }
    InsertJobsEffect(s.db, active);
    var db1 := InsertJobs(s.db, FreshRows(active)).value;
    InsertParkedEffect(db1, parked, now);
  }

  /** The jobs of the dispatch, and only those, become created. */
  ghost predicate CreatedEffect(s: System, t: System, entries: seq<JobEntry>) {
    && (forall id | id in s.created :: id in t.created && t.created[id] == s.created[id])
    && (forall e | e in entries :: e.id in t.created && t.created[e.id] == PairOf(e.row) && e.id !in s.created)
    && (forall id | id in t.created && id !in s.created :: exists e :: e in entries && e.id == id)
    && (forall e, f | e in entries && f in entries && (e.id == f.id || e.row.consumer == f.row.consumer) :: e == f)
    && t == s.(db := t.db, created := t.created, believedPaused := t.believedPaused)
  }

  lemma DispatchCreates(s: System, t: System, message: MessageId, entries: seq<JobEntry>)
    requires FreshJobs(s, message, entries) && t == s.(db := t.db, created := s.created + PairsById(entries), believedPaused := t.believedPaused)
    ensures CreatedEffect(s, t, entries)
  {
  }

  lemma DispatchKeepsJobs(s: System, t: System, entries: seq<JobEntry>, snapshot: set<Scope>)
    requires JobsAreLive(s) && PairsAreUnique(s) && CreatedEffect(s, t, entries) && JobsEffect(s, t.db, entries, snapshot)
    requires forall e | e in entries :: e.row.status == Queued
    ensures JobsAreLive(t)
  {
  }

  lemma DispatchKeepsApart(s: System, t: System, entries: seq<JobEntry>, snapshot: set<Scope>, now: Time, k: nat)
    requires JobsAreLive(s) && ParkedAreLive(s) && CreatedEffect(s, t, entries)
    requires JobsEffect(s, t.db, entries, snapshot) && ParkingEffect(s, t.db, entries, snapshot, now) && k in t.db.parked
    ensures t.db.parked[k].id !in t.db.jobs
  {
    if k !in s.db.parked {
      var e :| e in entries && t.db.parked[k] == ParkedFrom(e, now) && Covered(snapshot, e.row.consumer);
      assert e.id !in s.created;
    } else {
      assert t.db.parked[k].id in s.created && t.db.parked[k].id !in s.db.jobs;
    }
  }

  lemma DispatchKeepsParked(s: System, t: System, entries: seq<JobEntry>, snapshot: set<Scope>, now: Time)
    requires ParkedAreLive(s) && PairsAreUnique(s) && CreatedEffect(s, t, entries) && ParkingEffect(s, t.db, entries, snapshot, now)
    requires forall k | k in t.db.parked :: t.db.parked[k].id !in t.db.jobs
    ensures ParkedAreLive(t)
  {
  }

  lemma DispatchKeepsStored(s: System, t: System, entries: seq<JobEntry>, snapshot: set<Scope>, now: Time)
    requires LiveAreStored(s) && CreatedEffect(s, t, entries)
    requires JobsEffect(s, t.db, entries, snapshot) && ParkingEffect(s, t.db, entries, snapshot, now)
    ensures LiveAreStored(t)
  {
    forall id | Live(t, id) ensures id in t.db.jobs || ParkedSomewhere(t, id) {
      if id in s.created {
        assert Live(s, id);
        if id !in s.db.jobs {
          var k :| k in s.db.parked && s.db.parked[k].id == id;
          assert t.db.parked[k].id == id;
        }
      } else {
        var e :| e in entries && e.id == id;
      }
    }
  }

  lemma DispatchKeepsPairs(s: System, t: System, message: MessageId, entries: seq<JobEntry>)
    requires PairsAreUnique(s) && CreatedEffect(s, t, entries)
    requires (forall e | e in entries :: e.row.message == message) && forall id | id in s.created :: s.created[id].message != message
    ensures PairsAreUnique(t)
  {
    forall a, b | a in t.created && b in t.created && t.created[a] == t.created[b] ensures a == b {
      if a in s.created { assert t.created[a].message != message; }
    }
  }

  lemma DispatchKeepsMessages(s: System, t: System, message: MessageId, entries: seq<JobEntry>, now: Time)
    requires MessagesAreDispatched(s) && CreatedEffect(s, t, entries)
    requires forall e | e in entries :: e.row.message == message
    requires message in s.db.messages && s.db.messages[message].status == Acknowledged
    requires t.db.messages == s.db.messages[message := s.db.messages[message].(status := Dispatched, outboxedAt := now)]
    ensures MessagesAreDispatched(t) && forall id | id in s.created :: s.created[id].message != message
  {
    forall id | id in t.created
      ensures t.created[id].message in t.usedMessages
      ensures t.created[id].message in t.db.messages ==> t.db.messages[t.created[id].message].status == Dispatched
    {
      if id !in s.created { var e :| e in entries && e.id == id; }
    }
  }

  lemma DispatchKeepsPruneReads(s: System, t: System, message: MessageId, entries: seq<JobEntry>, snapshot: set<Scope>, now: Time)
    requires PruneReadsAgree(s) && t.pruneReads == s.pruneReads && t.usedMessages == s.usedMessages
    requires JobsEffect(s, t.db, entries, snapshot) && ParkingEffect(s, t.db, entries, snapshot, now)
    requires forall e | e in entries :: e.row.message == message
    requires message in s.db.messages && s.db.messages[message].status == Acknowledged
    requires t.db.messages == s.db.messages[message := s.db.messages[message].(status := Dispatched, outboxedAt := now)]
    ensures PruneReadsAgree(t)
  {
    forall m | m in t.pruneReads && m in t.db.messages ensures CompletelyDelivered(t.db, m) {
      assert CompletelyDelivered(s.db, m) && m != message;
    }
  }

  lemma DispatchKeepsReads(s: System, t: System, entries: seq<JobEntry>, snapshot: set<Scope>, now: Time)
    requires DrainReadsAgree(s) && ParkedWerePaused(s) && ParkedAreLive(s)
    requires t.drains == s.drains && t.believedPaused == s.believedPaused + snapshot && t.db.pauses == s.db.pauses && ParkingEffect(s, t.db, entries, snapshot, now)
    ensures ParkedOnce(t) && DrainReadsAgree(t) && ParkedWerePaused(t)
  {
  }

  lemma EffectKeepsInv(s: System, t: System, message: MessageId, entries: seq<JobEntry>, snapshot: set<Scope>, now: Time)
    requires Inv(s) && CreatedEffect(s, t, entries) && DispatchEffect(s, t.db, entries, snapshot, now) && t.believedPaused == s.believedPaused + snapshot
    requires forall e | e in entries :: e.row.message == message && e.row.status == Queued
    requires message in s.db.messages && s.db.messages[message].status == Acknowledged
    requires t.db.messages == s.db.messages[message := s.db.messages[message].(status := Dispatched, outboxedAt := now)]
    ensures Inv(t)
  {
    DispatchKeepsJobs(s, t, entries, snapshot);
    forall k | k in t.db.parked ensures t.db.parked[k].id !in t.db.jobs {
      DispatchKeepsApart(s, t, entries, snapshot, now, k);
    }
    DispatchKeepsParked(s, t, entries, snapshot, now);
    DispatchKeepsStored(s, t, entries, snapshot, now);
    DispatchKeepsMessages(s, t, message, entries, now);
    DispatchKeepsPairs(s, t, message, entries);
    DispatchKeepsPruneReads(s, t, message, entries, snapshot, now);
    DispatchKeepsReads(s, t, entries, snapshot, now);
  }

  lemma DispatchKeepsInv(s: System, message: MessageId, entries: seq<JobEntry>, snapshot: set<Scope>, now: Time)
    requires Inv(s)
    ensures Inv(DoDispatch(s, message, entries, snapshot, now))
  {
    var t := DoDispatch(s, message, entries, snapshot, now);
    if t != s {
      DispatchHasEffect(s, message, entries, snapshot, now);
      DispatchCreates(s, t, message, entries);
      EffectKeepsInv(s, t, message, entries, snapshot, now);
    }
  }

  // ---------- every step, every run ----------

  lemma CreateKeepsInv(s: System, message: MessageId, row: MessageRow)
    requires Inv(s) && message !in s.usedMessages
    ensures Inv(s.(db := s.db.(messages := s.db.messages[message := row]), usedMessages := s.usedMessages + {message}))
  {
    var t := s.(db := s.db.(messages := s.db.messages[message := row]), usedMessages := s.usedMessages + {message});
    assert forall id | ParkedSomewhere(s, id) :: ParkedSomewhere(t, id);
    forall m | m in t.pruneReads && m in t.db.messages ensures CompletelyDelivered(t.db, m) {
      assert CompletelyDelivered(s.db, m);
    }
  }

  /** The steps that only rewrite rows of the `job` table. */
  predicate RewritesJobs(step: Step) {
    step.HandOut? || step.Deliver? || step.Bury? || step.BuryQueued? || step.Retry? || step.HandOutDead? || step.RequeueDead? || step.RequeueAllDead?
  }

  lemma RewriteOne(cfg: Config, s: System, step: Step)
    requires (step.HandOut? || step.HandOutDead? || step.Retry?) && JobsAreLive(s)
    ensures Do(cfg, s, step) == s.(db := s.db.(jobs := Do(cfg, s, step).db.jobs))
    ensures Rewrites(s.db.jobs, Do(cfg, s, step).db.jobs)
  {
  }

  lemma RewriteStatus(cfg: Config, s: System, step: Step)
    requires (step.Deliver? || step.Bury? || step.BuryQueued?) && JobsAreLive(s)
    ensures Do(cfg, s, step) == s.(db := s.db.(jobs := Do(cfg, s, step).db.jobs))
    ensures Rewrites(s.db.jobs, Do(cfg, s, step).db.jobs)
  {
  }

  lemma RewriteDead(cfg: Config, s: System, step: Step)
    requires (step.RequeueDead? || step.RequeueAllDead?) && JobsAreLive(s)
    ensures Do(cfg, s, step) == s.(db := s.db.(jobs := Do(cfg, s, step).db.jobs))
    ensures Rewrites(s.db.jobs, Do(cfg, s, step).db.jobs)
  {
  }

  lemma RewriteStep(cfg: Config, s: System, step: Step)
    requires RewritesJobs(step) && JobsAreLive(s)
    ensures Do(cfg, s, step) == s.(db := s.db.(jobs := Do(cfg, s, step).db.jobs))
    ensures Rewrites(s.db.jobs, Do(cfg, s, step).db.jobs)
  {
    if step.HandOut? || step.HandOutDead? || step.Retry? {
      RewriteOne(cfg, s, step);
    } else if step.RequeueDead? || step.RequeueAllDead? {
      RewriteDead(cfg, s, step);
    } else {
      RewriteStatus(cfg, s, step);
    }
  }

  lemma StepKeepsInv(cfg: Config, s: System, step: Step)
    requires Inv(s)
    ensures Inv(Do(cfg, s, step))
  {
    if RewritesJobs(step) {
      RewriteStep(cfg, s, step);
      RewriteKeepsInv(s, Do(cfg, s, step).db.jobs);
    } else {
      OtherStepKeepsInv(cfg, s, step);
    }
  }

  lemma DeleteStepKeepsInv(cfg: Config, s: System, step: Step)
    requires Inv(s) && (step.DeleteDead? || step.DeleteAllDead?)
    ensures Inv(Do(cfg, s, step))
  {
    if step.DeleteDead? {
      DeleteKeepsInv(s, if Exhausted(s.db, step.id, cfg.maxRetry) then {step.id} else {});
    } else {
      DeleteKeepsInv(s, ExhaustedJobsOf(s.db, step.consumer, cfg.maxRetry));
    }
  }

  lemma FrameStepKeepsInv(cfg: Config, s: System, step: Step)
    requires Inv(s) && (step.BeginDrain? || step.PauseScope? || step.ResumeScope? || step.PruneRead?)
    ensures Inv(Do(cfg, s, step))
  {
    FrameKeepsInv(s, Do(cfg, s, step));
  }

  lemma OtherStepKeepsInv(cfg: Config, s: System, step: Step)
    requires Inv(s) && !RewritesJobs(step)
    ensures Inv(Do(cfg, s, step))
  {
    if step.CreateMessage? {
      if step.message !in s.usedMessages { CreateKeepsInv(s, step.message, MessageRow(Acknowledged, step.now, step.now)); }
    } else if step.Dispatch? {
      DispatchKeepsInv(s, step.message, step.entries, step.snapshot, step.now);
    } else if step.DeleteDead? || step.DeleteAllDead? {
      DeleteStepKeepsInv(cfg, s, step);
    } else if step.Repark? {
      ReparkKeepsInv(s, step.id, step.now);
    } else if step.CommitDrain? {
      CommitKeepsInv(s, step.tx, step.earliest, step.now);
    } else if step.PruneDelete? {
      if step.messages <= s.pruneReads { PruneKeepsInv(s, step.messages); }
    } else {
      FrameStepKeepsInv(cfg, s, step);
    }
  }

  /** A drain that commits moves exactly the page it read; one that does not changes no row. */
  lemma CommitMovesItsPage(s: System, tx: nat, earliest: Time, now: Time)
    requires Inv(s) && tx in s.drains
    ensures var u, page := s.(drains := s.drains - {tx}), s.drains[tx];
            var t := WithDb(u, CommitDrainPage(s.db, page, earliest, now));
            Inv(u) && (t == u || (PageIsParked(u, page) && t == Drained(u, page, earliest, now)))
  {
    var u, page := s.(drains := s.drains - {tx}), s.drains[tx];
    FrameKeepsInv(s, u);
    assert forall i | 0 <= i < |page| :: page[i].seqNo in u.db.parked ==> u.db.parked[page[i].seqNo] == page[i].row;
    PageCommits(u, page, earliest, now);
  }

  lemma PageCommits(u: System, page: seq<ParkedEntry>, earliest: Time, now: Time)
    requires Inv(u) && forall i | 0 <= i < |page| :: page[i].seqNo in u.db.parked ==> u.db.parked[page[i].seqNo] == page[i].row
    ensures var t := WithDb(u, CommitDrainPage(u.db, page, earliest, now));
            t == u || (PageIsParked(u, page) && t == Drained(u, page, earliest, now))
  {
    DrainCommitsIffAllPresent(u, page, earliest, now);
  }

  lemma CommitKeepsInv(s: System, tx: nat, earliest: Time, now: Time)
    requires Inv(s)
    ensures tx in s.drains ==> Inv(WithDb(s.(drains := s.drains - {tx}), CommitDrainPage(s.db, s.drains[tx], earliest, now)))
  {
    if tx in s.drains {
      var u, page := s.(drains := s.drains - {tx}), s.drains[tx];
      CommitMovesItsPage(s, tx, earliest, now);
      if PageIsParked(u, page) {
        DrainKeepsInv(u, page, earliest, now);
      }
    }
  }

  /** Steps that touch no job, message or parked row. */
  lemma FrameKeepsInv(s: System, t: System)
    requires Inv(s)
    requires t.db == s.db.(pauses := t.db.pauses) && t.created == s.created && t.removed == s.removed && t.usedMessages == s.usedMessages
    requires s.believedPaused <= t.believedPaused && t.db.pauses <= t.believedPaused
    requires forall tx | tx in t.drains && (tx !in s.drains || t.drains[tx] != s.drains[tx]) ::
               forall i | 0 <= i < |t.drains[tx]| :: t.drains[tx][i].seqNo in s.db.parked && t.drains[tx][i].row == s.db.parked[t.drains[tx][i].seqNo]
    requires forall m | m in t.pruneReads && m !in s.pruneReads :: CompletelyDelivered(s.db, m)
    ensures Inv(t)
  {
    assert forall id | ParkedSomewhere(s, id) :: ParkedSomewhere(t, id);
    forall m | m in t.pruneReads && m in t.db.messages ensures CompletelyDelivered(t.db, m) {
      assert CompletelyDelivered(s.db, m);
    }
  }

  lemma {:induction false} RunKeepsInv(cfg: Config, s: System, steps: seq<Step>)
    requires Inv(s)
    ensures Inv(Exec(cfg, s, steps))
    decreases |steps|
  {
    if steps != [] {
      StepKeepsInv(cfg, s, steps[0]);
      RunKeepsInv(cfg, Do(cfg, s, steps[0]), steps[1..]);
    }
  }

  lemma ReachableInv(cfg: Config, s: System)
    requires Reachable(cfg, s)
    ensures Inv(s)
  {
    var steps :| Exec(cfg, Init, steps) == s;
    RunKeepsInv(cfg, Init, steps);
  }

  // ---------- the main results ----------

  function JobRowsFor(db: Db, pair: Pair): set<JobId> {
    set id | id in db.jobs && PairOf(db.jobs[id]) == pair
  }

  function ParkedRowsFor(db: Db, pair: Pair): set<nat> {
    set k | k in db.parked && PairOfParked(db.parked[k]) == pair
  }

  ghost predicate Owed(s: System, pair: Pair) {
    exists id :: Live(s, id) && s.created[id] == pair
  }

  /**
    In every state of every run a (message, consumer) job that was created and not removed has
    exactly one row across the two tables, and any other pair has none.
   */
  lemma ExactlyOnePlace(cfg: Config, s: System, pair: Pair)
    requires Reachable(cfg, s)
    ensures |JobRowsFor(s.db, pair)| + |ParkedRowsFor(s.db, pair)| == if Owed(s, pair) then 1 else 0
  {
    ReachableInv(cfg, s);
    var inJob, inParking := JobRowsFor(s.db, pair), ParkedRowsFor(s.db, pair);
    if Owed(s, pair) {
      var id: JobId :| Live(s, id) && s.created[id] == pair;
      if id in s.db.jobs {
        assert inJob == {id} && inParking == {};
      } else {
        assert ParkedSomewhere(s, id);
        var k :| k in s.db.parked && s.db.parked[k].id == id;
        assert inJob == {} && inParking == {k};
      }
    } else {
      assert inJob == {} && inParking == {};
    }
  }

  /** The checks of the parking invariants: no id in both tables, and no parked row of a consumer nobody took to be paused. */
  lemma ParkingInvariants(cfg: Config, s: System)
    requires Reachable(cfg, s)
    ensures forall id, k | id in s.db.jobs && k in s.db.parked :: s.db.parked[k].id != id && PairOfParked(s.db.parked[k]) != PairOf(s.db.jobs[id])
    ensures forall k | k in s.db.parked :: Covered(s.believedPaused, s.db.parked[k].consumer)
    ensures forall id | id in s.db.jobs :: s.db.jobs[id].status != Parked
  {
    ReachableInv(cfg, s);
    forall id, k | id in s.db.jobs && k in s.db.parked
      ensures s.db.parked[k].id != id && PairOfParked(s.db.parked[k]) != PairOf(s.db.jobs[id])
    {
      assert s.created[id] != s.created[s.db.parked[k].id];
    }
  }

  /** The scopes that a run pauses. */
  function PausesOf(steps: seq<Step>): set<Scope> {
    if steps == [] then {} else
    var n := |steps| - 1;
    PausesOf(steps[..n]) + if steps[n].PauseScope? then {steps[n].scope} else {}
  }

  /** Every dispatch of the run has a snapshot of scopes that were paused at some time before it. */
  ghost predicate OnceTrue(steps: seq<Step>) {
    forall i | 0 <= i < |steps| && steps[i].Dispatch? :: steps[i].snapshot <= PausesOf(steps[..i])
  }

  lemma {:induction false} BelievedWerePaused(cfg: Config, steps: seq<Step>)
    requires OnceTrue(steps)
    ensures Exec(cfg, Init, steps).believedPaused <= PausesOf(steps)
    decreases |steps|
  {
    if steps != [] {
      var n := |steps| - 1;
      var before, last := steps[..n], steps[n];
      assert forall i | 0 <= i < n :: before[..i] == steps[..i];
      BelievedWerePaused(cfg, before);
      assert steps == before + [last];
      ExecConcat(cfg, Init, before, [last]);
      ExecOne(cfg, Exec(cfg, Init, before), last);
    }
  }

  /** With once-true snapshots, no consumer that was never paused has a parked row. */
  lemma NeverPausedNeverParked(cfg: Config, steps: seq<Step>)
    requires OnceTrue(steps)
    ensures var db := Exec(cfg, Init, steps).db; forall k | k in db.parked :: Covered(PausesOf(steps), db.parked[k].consumer)
  {
    RunKeepsInv(cfg, Init, steps);
    BelievedWerePaused(cfg, steps);
  }

  /** With a snapshot that never was true, a dispatch parks the job of a consumer that was never paused. */
  lemma FalseSnapshotParks(cfg: Config, message: MessageId, e: JobEntry, now: Time)
    requires e.row.message == message && e.row.status == Queued && e.row.retries == 0
    ensures var steps := [CreateMessage(message, now), Dispatch(message, [e], {Global}, now)];
            PausesOf(steps) == {} && Exec(cfg, Init, steps).db.parked == map[0 := ParkedFrom(e, now)]
  {
    var create, dispatch := CreateMessage(message, now), Dispatch(message, [e], {Global}, now);
    ExecTwo(cfg, Init, create, dispatch);
    var steps := [create, dispatch];
    assert steps[..1] == [create] && PausesOf([create]) == {};
    assert Split({Global}, [e], true) == [e] && Split({Global}, [e], false) == [];
  }

  /** A job leaves both tables only by a delete of a DEAD job with its retries used up, or a prune of a DELIVERED one. */
  lemma RemovalIsDeliberate(cfg: Config, s: System, step: Step, id: JobId)
    requires Reachable(cfg, s) && Live(s, id) && !Live(Do(cfg, s, step), id)
    ensures || (NamesForDelete(s, step, id) && HasStatus(s.db, id, Dead) && s.db.jobs[id].retries >= cfg.maxRetry)
            || (step.PruneDelete? && HasStatus(s.db, id, Delivered) && s.db.jobs[id].message in step.messages)
  {
    ReachableInv(cfg, s);
    if step.PruneDelete? {
      assert CompletelyDelivered(s.db, s.db.jobs[id].message);
    }
  }

  /** The step is a dead-delete that asks for the job. */
  predicate NamesForDelete(s: System, step: Step, id: JobId) {
    id in s.db.jobs && match step
    case DeleteDead(j) => j == id
    case DeleteAllDead(consumer) => s.db.jobs[id].consumer == consumer
    case _ => false
  }

  /** A dead-delete takes exactly the DEAD jobs it asks for that have their retries used up; every other row stays. */
  lemma DeadDeleteIsExact(cfg: Config, s: System, step: Step, id: JobId)
    requires (step.DeleteDead? || step.DeleteAllDead?) && id in s.db.jobs
    ensures var t := Do(cfg, s, step).db;
            && (id !in t.jobs <==> NamesForDelete(s, step, id) && s.db.jobs[id].status == Dead && s.db.jobs[id].retries >= cfg.maxRetry)
            && (id in t.jobs ==> t.jobs[id] == s.db.jobs[id]) && t == s.db.(jobs := t.jobs) && t.jobs.Keys <= s.db.jobs.Keys
  {
  }

  /** A re-park moves the job exactly when it is QUEUED and its consumer is paused in the database. */
  lemma ReparkMovesIffQueuedAndPaused(cfg: Config, s: System, id: JobId, now: Time)
    requires Reachable(cfg, s)
    ensures ReparkQueuedJob(s.db, id, now).Some? <==> HasStatus(s.db, id, Queued) && Paused(s.db, s.db.jobs[id].consumer)
  {
    ReachableInv(cfg, s);
    if HasStatus(s.db, id, Queued) {
      forall k | k in s.db.parked
        ensures s.db.parked[k].id != id
        ensures !SamePair(s.db.parked[k].message, s.db.parked[k].consumer, s.db.jobs[id].message, s.db.jobs[id].consumer)
      {
        assert s.created[id] != s.created[s.db.parked[k].id];
      }
      assert CanInsertParked(s.db, [ParkedFrom(JobEntry(id, s.db.jobs[id]), now)]);
    }
  }

  // ---------- what never comes back ----------

  /** The parking number was used and its row is gone. */
  predicate IsGone(db: Db, k: nat) {
    k < db.nextSeq && k !in db.parked
  }

  lemma InsertedKeepsGone(db: Db, rows: seq<ParkedRow>, k: nat)
    requires IsGone(db, k) && InsertParked(db, rows).Some?
    ensures IsGone(InsertParked(db, rows).value, k)
  {
  }

  lemma DispatchKeepsGone(s: System, message: MessageId, entries: seq<JobEntry>, snapshot: set<Scope>, now: Time, k: nat)
    requires IsGone(s.db, k)
    ensures IsGone(DoDispatch(s, message, entries, snapshot, now).db, k)
  {
    var active, parked := Split(snapshot, entries, false), Split(snapshot, entries, true);
    if DispatchMessageWithParking(s.db, message, active, parked, now).Some? {
      InsertedKeepsGone(InsertJobs(s.db, FreshRows(active)).value, ParkedRows(parked, now), k);
    }
  }

  lemma ReparkKeepsGone(s: System, id: JobId, now: Time, k: nat)
    requires IsGone(s.db, k)
    ensures IsGone(WithDb(s, ReparkQueuedJob(s.db, id, now)).db, k)
  {
    if ReparkQueuedJob(s.db, id, now).Some? {
      InsertedKeepsGone(s.db, [ParkedFrom(JobEntry(id, s.db.jobs[id]), now)], k);
    }
  }

  lemma CommitKeepsGone(s: System, tx: nat, earliest: Time, now: Time, k: nat)
    requires IsGone(s.db, k)
    ensures IsGone(DoCommit(s, tx, earliest, now).db, k)
  {
  }

  lemma OthersKeepGone(cfg: Config, s: System, step: Step, k: nat)
    requires IsGone(s.db, k) && !step.Dispatch? && !step.Repark? && !step.CommitDrain?
    ensures IsGone(Do(cfg, s, step).db, k)
  {
  }

  lemma {:induction false} GoneStaysGone(cfg: Config, s: System, steps: seq<Step>, k: nat)
    requires IsGone(s.db, k)
    ensures IsGone(Exec(cfg, s, steps).db, k)
    decreases |steps|
  {
    if steps != [] {
      var step := steps[0];
      if step.Dispatch? {
        DispatchKeepsGone(s, step.message, step.entries, step.snapshot, step.now, k);
      } else if step.Repark? {
        ReparkKeepsGone(s, step.id, step.now, k);
      } else if step.CommitDrain? {
        CommitKeepsGone(s, step.tx, step.earliest, step.now, k);
      } else {
        OthersKeepGone(cfg, s, step, k);
      }
      GoneStaysGone(cfg, Do(cfg, s, step), steps[1..], k);
    }
  }

  lemma GoneRefusesPage(db: Db, page: seq<ParkedEntry>, k: nat, earliest: Time, now: Time)
    requires k in SeqNos(page) && k !in db.parked
    ensures CommitDrainPage(db, page, earliest, now) == None
  {
    var i :| 0 <= i < |page| && page[i].seqNo == k;
    ExactDelete(db, page);
  }

  /**
    Of two drain transactions whose pages share a row at most one commits: once one has, the
    other rolls back after any further steps of any nodes, whatever times the two write.
   */
  lemma OverlappingDrainsExclude(cfg: Config, s: System, a: seq<ParkedEntry>, earliest: Time, now: Time, steps: seq<Step>,
                                 b: seq<ParkedEntry>, earliest': Time, now': Time)
    requires Reachable(cfg, s) && SeqNos(a) * SeqNos(b) != {} && CommitDrainPage(s.db, a, earliest, now).Some?
    ensures var t := Exec(cfg, s.(db := CommitDrainPage(s.db, a, earliest, now).value), steps);
            CommitDrainPage(t.db, b, earliest', now') == None
  {
    ReachableInv(cfg, s);
    var k :| k in SeqNos(a) && k in SeqNos(b);
    CommittedIsGone(s.db, a, earliest, now, k);
    var u := s.(db := CommitDrainPage(s.db, a, earliest, now).value);
    GoneStaysGone(cfg, u, steps, k);
    GoneRefusesPage(Exec(cfg, u, steps).db, b, k, earliest', now');
  }

  lemma CommittedIsGone(db: Db, page: seq<ParkedEntry>, earliest: Time, now: Time, k: nat)
    requires CommitDrainPage(db, page, earliest, now).Some? && k in SeqNos(page) && forall j | j in db.parked :: j < db.nextSeq
    ensures IsGone(CommitDrainPage(db, page, earliest, now).value, k)
  {
    var i :| 0 <= i < |page| && page[i].seqNo == k;
    ExactDelete(db, page);
  }

  /** The message exists or existed, and is past its dispatch if it still does. */
  predicate IsPastDispatch(s: System, message: MessageId) {
    message in s.usedMessages && (message in s.db.messages ==> s.db.messages[message].status == Dispatched)
  }

  lemma DispatchKeepsPast(s: System, message: MessageId, entries: seq<JobEntry>, snapshot: set<Scope>, now: Time, m: MessageId)
    requires IsPastDispatch(s, m)
    ensures IsPastDispatch(DoDispatch(s, message, entries, snapshot, now), m)
  {
  }

  lemma CommitKeepsPast(s: System, tx: nat, earliest: Time, now: Time, m: MessageId)
    requires IsPastDispatch(s, m)
    ensures IsPastDispatch(DoCommit(s, tx, earliest, now), m)
  {
  }

  lemma OthersKeepPast(cfg: Config, s: System, step: Step, m: MessageId)
    requires IsPastDispatch(s, m) && !step.Dispatch? && !step.CommitDrain?
    ensures IsPastDispatch(Do(cfg, s, step), m)
  {
  }

  lemma {:induction false} PastStaysPast(cfg: Config, s: System, steps: seq<Step>, m: MessageId)
    requires IsPastDispatch(s, m)
    ensures IsPastDispatch(Exec(cfg, s, steps), m)
    decreases |steps|
  {
    if steps != [] {
      var step := steps[0];
      if step.Dispatch? {
        DispatchKeepsPast(s, step.message, step.entries, step.snapshot, step.now, m);
      } else if step.CommitDrain? {
        CommitKeepsPast(s, step.tx, step.earliest, step.now, m);
      } else {
        OthersKeepPast(cfg, s, step, m);
      }
      PastStaysPast(cfg, Do(cfg, s, step), steps[1..], m);
    }
  }

  lemma PastRefusesDispatch(s: System, message: MessageId, active: seq<JobEntry>, parked: seq<JobEntry>, now: Time)
    requires IsPastDispatch(s, message)
    ensures DispatchMessageWithParking(s.db, message, active, parked, now) == None
  {
  }

  lemma CommittedIsPast(s: System, message: MessageId, active: seq<JobEntry>, parked: seq<JobEntry>, now: Time)
    requires s.db.messages.Keys <= s.usedMessages && DispatchMessageWithParking(s.db, message, active, parked, now).Some?
    ensures IsPastDispatch(s.(db := DispatchMessageWithParking(s.db, message, active, parked, now).value), message)
  {
  }

  /** Only the first dispatch of a message commits: after it, any dispatch of the message rolls back, in every later state. */
  lemma OnlyFirstDispatchCommits(cfg: Config, s: System, message: MessageId, active: seq<JobEntry>, parked: seq<JobEntry>, now: Time,
                                 steps: seq<Step>, active': seq<JobEntry>, parked': seq<JobEntry>, now': Time)
    requires Reachable(cfg, s) && DispatchMessageWithParking(s.db, message, active, parked, now).Some?
    ensures var t := Exec(cfg, s.(db := DispatchMessageWithParking(s.db, message, active, parked, now).value), steps);
            DispatchMessageWithParking(t.db, message, active', parked', now') == None
  {
    ReachableInv(cfg, s);
    CommittedIsPast(s, message, active, parked, now);
    var u := s.(db := DispatchMessageWithParking(s.db, message, active, parked, now).value);
    PastStaysPast(cfg, u, steps, message);
    PastRefusesDispatch(Exec(cfg, u, steps), message, active', parked', now');
  }

  /** What a drain makes of the row that parking made of a job is the job itself, QUEUED and rescheduled. */
  lemma DrainedRowIsTheJob(entry: JobEntry, parkedAt: Time, earliest: Time, now: Time)
    ensures DrainedRow(ParkedFrom(entry, parkedAt), earliest, now)
            == entry.row.(status := Queued, statusChangedAt := now, updatedAt := now, earliestNextAttemptAt := earliest)
    ensures ParkedFrom(entry, parkedAt).id == entry.id && ParkedFrom(entry, parkedAt).parkedAt == parkedAt
  {
  }

  /** Draining a single row. */
  lemma DrainOneRow(t: System, k: nat, row: ParkedRow, earliest: Time, now: Time)
    ensures Drained(t, [ParkedEntry(k, row)], earliest, now)
            == t.(db := t.db.(parked := t.db.parked - {k}, jobs := t.db.jobs[row.id := DrainedRow(row, earliest, now)]))
  {
    var page := [ParkedEntry(k, row)];
    assert page[0].seqNo == k && SeqNos(page) == {k};
    var entries := DrainedEntries(page, earliest, now);
    assert entries == [JobEntry(row.id, DrainedRow(row, earliest, now))] && entries[..0] == [];
    assert ById(entries) == map[row.id := DrainedRow(row, earliest, now)];
  }

  lemma DrainOneCommits(t: System, k: nat, row: ParkedRow, earliest: Time, now: Time)
    requires Inv(t) && k in t.db.parked && t.db.parked[k] == row
    ensures CommitDrainPage(t.db, [ParkedEntry(k, row)], earliest, now)
            == Some(t.db.(parked := t.db.parked - {k}, jobs := t.db.jobs[row.id := DrainedRow(row, earliest, now)]))
  {
    DrainCommitsIffAllPresent(t, [ParkedEntry(k, row)], earliest, now);
    DrainOneRow(t, k, row, earliest, now);
  }

  lemma MovedRowComesBack(s: System, id: JobId, row: ParkedRow, earliest: Time, now: Time)
    requires Inv(s) && HasStatus(s.db, id, Queued) && row.id == id && PairOfParked(row) == PairOf(s.db.jobs[id]) && Covered(s.believedPaused, row.consumer)
    ensures CommitDrainPage(Moved(s, id, row).db, [ParkedEntry(s.db.nextSeq, row)], earliest, now)
            == Some(s.db.(jobs := s.db.jobs[id := DrainedRow(row, earliest, now)], nextSeq := s.db.nextSeq + 1))
  {
    MoveKeepsInv(s, id, row);
    DrainOneCommits(Moved(s, id, row), s.db.nextSeq, row, earliest, now);
    BackInPlace(s, id, row, earliest, now);
  }

  lemma BackInPlace(s: System, id: JobId, row: ParkedRow, earliest: Time, now: Time)
    requires ParkedAreLive(s) && row.id == id && id in s.db.jobs
    ensures var t := Moved(s, id, row).db;
            t.(parked := t.parked - {s.db.nextSeq}, jobs := t.jobs[id := DrainedRow(row, earliest, now)])
            == s.db.(jobs := s.db.jobs[id := DrainedRow(row, earliest, now)], nextSeq := s.db.nextSeq + 1)
  {
    var t := Moved(s, id, row).db;
    assert s.db.nextSeq !in s.db.parked;
    assert t.parked - {s.db.nextSeq} == s.db.parked;
    assert t.jobs[id := DrainedRow(row, earliest, now)] == s.db.jobs[id := DrainedRow(row, earliest, now)];
  }

  /** Draining the row of a re-parked job undoes the re-park: the job is back as it was, but for its times. */
  lemma DrainUndoesRepark(cfg: Config, s: System, id: JobId, parkedAt: Time, earliest: Time, now: Time)
    requires Reachable(cfg, s) && ReparkQueuedJob(s.db, id, parkedAt).Some?
    ensures var parked := ReparkQueuedJob(s.db, id, parkedAt).value;
            && s.db.nextSeq in parked.parked
            && CommitDrainPage(parked, [ParkedEntry(s.db.nextSeq, parked.parked[s.db.nextSeq])], earliest, now)
               == Some(s.db.(nextSeq := s.db.nextSeq + 1,
                             jobs := s.db.jobs[id := s.db.jobs[id].(statusChangedAt := now, updatedAt := now, earliestNextAttemptAt := earliest)]))
  {
    ReachableInv(cfg, s);
    var entry := JobEntry(id, s.db.jobs[id]);
    ReparkIsMove(s, id, parkedAt);
    MovedRowComesBack(s, id, ParkedFrom(entry, parkedAt), earliest, now);
    DrainedRowIsTheJob(entry, parkedAt, earliest, now);
  }
}
