/**
  The prune run: load delivered messages, archive each with its jobs, delete what was archived,
  and go round again until no message is listed.
 */
module PruneService {
  import opened Types
  import opened Transactions
  import opened Repositories

  /**
    What the archive writers accepted for a message: its row and the rows of its jobs. An
    `orphan` is without its channel or producer, the `bare` jobs are without their consumer.
   */
  datatype Record = Record(message: MessageRow, orphan: bool, jobs: map<JobId, JobRow>, bare: set<JobId>)

  type Archive = map<MessageId, Record>

  /** Why the run ended; `nothingArchived` is whether the write that failed was the first of its page. */
  datatype Ending = NoMessages | JobsNotLoaded | WriteFailed(nothingArchived: bool) | DeleteFailed

  /** What the outside answers in one round. */
  datatype Answer = Answer(
    failingList: Option<nat>,     // a list query fails when so many messages have been read
    orphans: set<MessageId>,      // messages whose channel or producer can not be loaded
    jobsLoaded: bool,
    bareJobs: set<JobId>,         // jobs whose consumer can not be loaded
    failingWrite: Option<nat>,    // the first write that fails
    deleted: bool)

  /** The query for messages that are completely delivered; it reads the clock, so it may change from round to round. */
  type Query = (nat, Db) -> seq<MessageId>

  function JobsFor(db: Db, message: MessageId): map<JobId, JobRow> {
    map id | id in db.jobs && db.jobs[id].message == message :: db.jobs[id]
  }

  ghost predicate LoadsDelivered(load: Query) {
    forall n, db, m | m in load(n, db) :: CompletelyDelivered(db, m)
  }

  ghost predicate AllDelivered(db: Db, page: seq<MessageId>) {
    forall m | m in page :: CompletelyDelivered(db, m)
  }

  /** The record holds the message and all its jobs as they are in the table. */
  predicate IsRecordOf(record: Record, db: Db, m: MessageId) {
    m in db.messages && record.message == db.messages[m] && record.jobs == JobsFor(db, m)
  }

  /** The archive holds the message and all its jobs as they were in the table. */
  ghost predicate IsArchived(archive: Archive, db: Db, m: MessageId) {
    m in archive && IsRecordOf(archive[m], db, m)
  }

  ghost predicate AllArchived(archive: Archive, db: Db, ms: set<MessageId>) {
    forall m | m in ms :: IsArchived(archive, db, m) && CompletelyDelivered(db, m)
  }

  /** The first `n` of the list, or all when there is no such limit. */
  function UpTo(list: seq<MessageId>, n: Option<nat>): seq<MessageId> {
    if n.Some? && n.value < |list| then list[..n.value] else list
  }

  /** What a round writes of its page: all, or the messages before the write that fails. */
  function Written(page: seq<MessageId>, answer: Answer): seq<MessageId> {
    UpTo(page, answer.failingWrite)
  }

  function RecordFor(db: Db, m: MessageId, answer: Answer): Record
    requires m in db.messages
  {
    Record(db.messages[m], m in answer.orphans, JobsFor(db, m), JobsFor(db, m).Keys * answer.bareJobs)
  }

  /** The records of the messages, each with all its jobs. */
  function Records(db: Db, ms: set<MessageId>, answer: Answer): Archive {
    map m | m in ms && m in db.messages :: RecordFor(db, m, answer)
  }

  lemma RecordsGrow(db: Db, before: Archive, written: seq<MessageId>, m: MessageId, answer: Answer)
    requires m in db.messages
    ensures before + Records(db, Listed(written + [m]), answer) == (before + Records(db, Listed(written), answer))[m := RecordFor(db, m, answer)]
  {
    assert Listed(written + [m]) == Listed(written) + {m};
    var a, b := Records(db, Listed(written + [m]), answer), Records(db, Listed(written), answer);
    assert a == b[m := RecordFor(db, m, answer)];
  }

  /** Writes the messages in order until a write fails; returns those written. */
  method ArchivePage(db: Db, page: seq<MessageId>, answer: Answer, before: Archive) returns (archive: Archive, written: seq<MessageId>)
    requires forall m | m in page :: m in db.messages
    ensures written == Written(page, answer) && archive == before + Records(db, Listed(written), answer)
  {
    archive, written := before, [];
    for i := 0 to |page|
      invariant written == page[..i] && (answer.failingWrite.Some? ==> i <= answer.failingWrite.value)
      invariant archive == before + Records(db, Listed(written), answer)
    {
      if answer.failingWrite == Some(i) { return; }
      var m := page[i];
      RecordsGrow(db, before, page[..i], m, answer);
      archive := archive[m := RecordFor(db, m, answer)];
      written := written + [m];
    }
  }

  lemma OthersStay(db0: Db, deleted: set<MessageId>, db: Db, m: MessageId)
    requires db == DeleteMessagesAndJobs(db0, deleted) && m in db.messages
    ensures m in db0.messages && m !in deleted && db.messages[m] == db0.messages[m] && JobsFor(db, m) == JobsFor(db0, m)
    ensures CompletelyDelivered(db, m) ==> CompletelyDelivered(db0, m)
  {
    assert forall id | id in db0.jobs && db0.jobs[id].message == m :: id in db.jobs;
  }

  /** Deleting one batch after another is deleting them together. */
  lemma DeleteBoth(db0: Db, a: set<MessageId>, b: set<MessageId>)
    ensures DeleteMessagesAndJobs(DeleteMessagesAndJobs(db0, a), b) == DeleteMessagesAndJobs(db0, a + b)
  {
    var db := DeleteMessagesAndJobs(db0, a);
    assert db.jobs - JobsOf(db, b) == db0.jobs - JobsOf(db0, a + b);
    assert db.messages - b == db0.messages - (a + b);
  }

  /** The records written in a round are as good for the tables the run began with. */
  lemma RecordsStay(db0: Db, deleted: set<MessageId>, db: Db, before: Archive, ms: set<MessageId>, answer: Answer)
    requires db == DeleteMessagesAndJobs(db0, deleted) && AllArchived(before, db0, deleted)
    requires forall m | m in ms :: CompletelyDelivered(db, m)
    ensures AllArchived(before + Records(db, ms, answer), db0, deleted + ms)
  {
    var archive := before + Records(db, ms, answer);
    forall m | m in deleted + ms ensures IsArchived(archive, db0, m) && CompletelyDelivered(db0, m) {
      if m in ms {
        assert CompletelyDelivered(db, m);
        OthersStay(db0, deleted, db, m);
      } else {
        assert IsArchived(before, db0, m) && m !in db.messages;
      }
    }
  }

  lemma FewerMessages(db: Db, written: seq<MessageId>)
    requires written != [] && written[0] in db.messages
    ensures |DeleteMessagesAndJobs(db, Listed(written)).messages| < |db.messages|
  {
    var t := DeleteMessagesAndJobs(db, Listed(written));
    assert written[0] in Listed(written);
    var rest := db.messages.Keys - {written[0]};
    assert t.messages.Keys <= rest;
    assert rest == t.messages.Keys + (rest - t.messages.Keys);
  }

  // ---------- the rounds of a run ----------

  /** The messages a round sees: what the query gives, up to a query that fails. */
  function PageOf(load: Query, k: nat, db: Db, answer: Answer): seq<MessageId> {
    UpTo(load(k, db), answer.failingList)
  }

  /** The round archives and deletes a whole page, so another follows. */
  predicate IsClean(page: seq<MessageId>, answer: Answer) {
    page != [] && answer.jobsLoaded && Written(page, answer) == page && answer.deleted
  }

  /** What a round deletes. */
  function Removed(page: seq<MessageId>, answer: Answer): set<MessageId> {
    if answer.jobsLoaded && answer.deleted then Listed(Written(page, answer)) else {}
  }

  /** What a round writes to the archive. */
  function Archived(page: seq<MessageId>, answer: Answer): set<MessageId> {
    if answer.jobsLoaded then Listed(Written(page, answer)) else {}
  }

  /** The tables a round leaves. */
  function AfterRound(db: Db, page: seq<MessageId>, answer: Answer): Db {
    DeleteMessagesAndJobs(db, Removed(page, answer))
  }

  /** The tables at the start of round `k`. */
  function TablesAt(db0: Db, load: Query, answers: nat -> Answer, k: nat): Db {
    if k == 0 then db0 else
    var db := TablesAt(db0, load, answers, k - 1);
    AfterRound(db, PageOf(load, k - 1, db, answers(k - 1)), answers(k - 1))
  }

  function PageAt(db0: Db, load: Query, answers: nat -> Answer, k: nat): seq<MessageId> {
    PageOf(load, k, TablesAt(db0, load, answers, k), answers(k))
  }

  /** The archive at the start of round `k`. */
  function ArchiveAt(db0: Db, load: Query, answers: nat -> Answer, k: nat): Archive {
    if k == 0 then map[] else
    var db, page := TablesAt(db0, load, answers, k - 1), PageAt(db0, load, answers, k - 1);
    ArchiveAt(db0, load, answers, k - 1) + Records(db, Archived(page, answers(k - 1)), answers(k - 1))
  }

  predicate IsCleanAt(db0: Db, load: Query, answers: nat -> Answer, k: nat) {
    IsClean(PageAt(db0, load, answers, k), answers(k))
  }

  /** Round `k` is the first that is not clean. */
  ghost predicate IsLast(db0: Db, load: Query, answers: nat -> Answer, k: nat) {
    !IsCleanAt(db0, load, answers, k) && forall j: nat | j < k :: IsCleanAt(db0, load, answers, j)
  }

  /** Why a run ends with a round that is not clean. */
  function EndingOf(page: seq<MessageId>, answer: Answer): Ending {
    if page == [] then NoMessages
    else if !answer.jobsLoaded then JobsNotLoaded
    else if Written(page, answer) == [] then WriteFailed(true)
    else if !answer.deleted then DeleteFailed
    else WriteFailed(false)
  }

  // ---------- what fails and what is reported ----------

  /** The error condition of the run, on its last page and the answer to its last round. */
  predicate IsReported(page: seq<MessageId>, answer: Answer) {
    page != [] && (!answer.jobsLoaded || answer.failingWrite == Some(0) || !answer.deleted)
  }

  /** Some operation of the round fails: each is asked about only where the round gets to it. */
  predicate HasFailure(db: Db, page: seq<MessageId>, answer: Answer) {
    || answer.failingList.Some?
    || Listed(page) * answer.orphans != {}
    || (page != [] && !answer.jobsLoaded)
    || (answer.jobsLoaded && JobsOf(db, Listed(page)) * answer.bareJobs != {})
    || (answer.jobsLoaded && answer.failingWrite.Some? && answer.failingWrite.value < |page|)
    || (answer.jobsLoaded && Written(page, answer) != [] && !answer.deleted)
  }

  /** A write fails after another of the same page, and the delete of what was written works. */
  predicate IsForgotten(page: seq<MessageId>, answer: Answer) {
    answer.jobsLoaded && answer.failingWrite.Some? && 0 < answer.failingWrite.value < |page| && answer.deleted
  }

  /** A list query, or the load of a channel, a producer or a consumer, fails, or a write is forgotten. */
  predicate IsSilent(db: Db, page: seq<MessageId>, answer: Answer) {
    || answer.failingList.Some?
    || Listed(page) * answer.orphans != {}
    || (answer.jobsLoaded && JobsOf(db, Listed(page)) * answer.bareJobs != {})
    || IsForgotten(page, answer)
  }

  /** Every failure of a round is reported or silent. */
  lemma FailureIsReportedOrSilent(db: Db, page: seq<MessageId>, answer: Answer)
    ensures HasFailure(db, page, answer) <==> IsReported(page, answer) || IsSilent(db, page, answer)
  {
    if page != [] && answer.jobsLoaded {
      assert Written(page, answer) == [] <==> answer.failingWrite == Some(0);
    }
  }

  /** Another round follows exactly when there are messages, nothing is reported and no write is forgotten. */
  lemma CleanIffNothingStops(page: seq<MessageId>, answer: Answer)
    ensures IsClean(page, answer) <==> page != [] && !IsReported(page, answer) && !IsForgotten(page, answer)
  {
    if answer.failingWrite.Some? && answer.failingWrite.value < |page| {
      assert |Written(page, answer)| < |page|;
    }
  }

  predicate FailsAt(db0: Db, load: Query, answers: nat -> Answer, k: nat) {
    HasFailure(TablesAt(db0, load, answers, k), PageAt(db0, load, answers, k), answers(k))
  }

  predicate IsSilentAt(db0: Db, load: Query, answers: nat -> Answer, k: nat) {
    IsSilent(TablesAt(db0, load, answers, k), PageAt(db0, load, answers, k), answers(k))
  }

  predicate IsReportedAt(db0: Db, load: Query, answers: nat -> Answer, k: nat) {
    IsReported(PageAt(db0, load, answers, k), answers(k))
  }

  /** Some operation of a run with last round `k` fails. */
  ghost predicate RunFails(db0: Db, load: Query, answers: nat -> Answer, k: nat) {
    exists j: nat :: j <= k && FailsAt(db0, load, answers, j)
  }

  /**
    The run returns an error if and only if some operation fails, exactly when its last round is
    one that reports, or no round of it has a silent failure.
   */
  lemma FailureIsReportedIff(db0: Db, load: Query, answers: nat -> Answer, k: nat)
    requires IsLast(db0, load, answers, k)
    ensures (RunFails(db0, load, answers, k) <==> IsReportedAt(db0, load, answers, k))
            <==> IsReportedAt(db0, load, answers, k) || forall j: nat | j <= k :: !IsSilentAt(db0, load, answers, j)
  {
    forall j: nat | j <= k ensures FailsAt(db0, load, answers, j) <==> (j == k && IsReportedAt(db0, load, answers, k)) || IsSilentAt(db0, load, answers, j) {
      RoundFailsIff(db0, load, answers, k, j);
    }
    assert IsReportedAt(db0, load, answers, k) ==> FailsAt(db0, load, answers, k);
    assert forall j: nat | j <= k && IsSilentAt(db0, load, answers, j) :: FailsAt(db0, load, answers, j);
  }

  /** Before the last round only silent failures are possible. */
  lemma RoundFailsIff(db0: Db, load: Query, answers: nat -> Answer, k: nat, j: nat)
    requires IsLast(db0, load, answers, k) && j <= k
    ensures FailsAt(db0, load, answers, j) <==> (j == k && IsReportedAt(db0, load, answers, k)) || IsSilentAt(db0, load, answers, j)
  {
    var db, page := TablesAt(db0, load, answers, j), PageAt(db0, load, answers, j);
    FailureIsReportedOrSilent(db, page, answers(j));
    if j < k {
      assert IsCleanAt(db0, load, answers, j);
      CleanIffNothingStops(page, answers(j));
    }
  }

  const Works := Answer(None, {}, true, {}, None, true)

  function Always(answer: Answer): nat -> Answer {
    n => answer
  }

  ghost predicate NothingFails(answers: nat -> Answer) {
    forall n :: answers(n) == Works
  }

  /** Without a failing answer the run goes on until there is nothing left to load. */
  lemma NoFailureLeavesNothing(db0: Db, load: Query, answers: nat -> Answer, k: nat)
    requires IsLast(db0, load, answers, k) && NothingFails(answers)
    ensures var db := TablesAt(db0, load, answers, k);
            load(k, db) == [] && AfterRound(db, PageAt(db0, load, answers, k), answers(k)) == db
  {
    var db := TablesAt(db0, load, answers, k);
    assert answers(k) == Works;
    CleanIffNothingStops(load(k, db), answers(k));
    DeleteNone(db);
  }

  // ---------- the silent failures, with runs that have them ----------

  /** A forgotten write: no error, and the message whose write failed is still in the table. */
  lemma ForgottenWriteIsSilent(db: Db, page: seq<MessageId>, answer: Answer)
    requires IsForgotten(page, answer)
    requires (forall m | m in page :: m in db.messages) && forall i, j | 0 <= i < j < |page| :: page[i] != page[j]
    ensures HasFailure(db, page, answer) && !IsReported(page, answer) && EndingOf(page, answer) == WriteFailed(false)
    ensures var m := page[answer.failingWrite.value];
            m !in Written(page, answer) && m in AfterRound(db, page, answer).messages && m in db.messages
  {
    var m := page[answer.failingWrite.value];
    assert m in page && m !in page[..answer.failingWrite.value];
  }

  /** Both messages, when both are completely delivered. */
  function LoadBoth(n: nat, db: Db): seq<MessageId> {
    if CompletelyDelivered(db, 1) && CompletelyDelivered(db, 2) then [1, 2] else []
  }

  function BothDelivered(row: MessageRow): Db {
    Db(map[1 := row, 2 := row], map[], map[], {}, 0)
  }

  lemma BothAreLoaded(row: MessageRow)
    requires row.status == Dispatched
    ensures LoadsDelivered(LoadBoth) && LoadBoth(0, BothDelivered(row)) == [1, 2]
  {
    var db := BothDelivered(row);
    assert CompletelyDelivered(db, 1) && CompletelyDelivered(db, 2);
    forall n, t, m | m in LoadBoth(n, t) ensures CompletelyDelivered(t, m) { }
  }

  /**
    A run with a forgotten write: two delivered messages, of which the second can not be written.
    The run ends in its first round with the second message neither written nor deleted, and
    without an error.
   */
  lemma ForgottenWrite(row: MessageRow)
    requires row.status == Dispatched
    ensures var db, answers := BothDelivered(row), Always(Works.(failingWrite := Some(1)));
            && LoadsDelivered(LoadBoth) && IsLast(db, LoadBoth, answers, 0)
            && RunFails(db, LoadBoth, answers, 0) && !IsReportedAt(db, LoadBoth, answers, 0)
            && 2 !in ArchiveAt(db, LoadBoth, answers, 1) && TablesAt(db, LoadBoth, answers, 1).messages == map[2 := row]
  {
    var db, answer := BothDelivered(row), Works.(failingWrite := Some(1));
    BothAreLoaded(row);
    assert Written([1, 2], answer) == [1] && Listed([1]) == {1};
    assert |Written([1, 2], answer)| == 1;
    ForgottenWriteIsSilent(db, [1, 2], answer);
    var answers := Always(answer);
    assert PageAt(db, LoadBoth, answers, 0) == [1, 2] && FailsAt(db, LoadBoth, answers, 0);
  }

  /**
    A run with a failed list query: two delivered messages, and the query for them fails. The run
    finds no messages to prune and ends with both of them in the table, and without an error.
   */
  lemma FailedQuery(row: MessageRow)
    requires row.status == Dispatched
    ensures var db, answers := BothDelivered(row), Always(Works.(failingList := Some(0)));
            && LoadsDelivered(LoadBoth) && LoadBoth(0, db) == [1, 2] && IsLast(db, LoadBoth, answers, 0)
            && RunFails(db, LoadBoth, answers, 0) && !IsReportedAt(db, LoadBoth, answers, 0)
            && EndingOf(PageAt(db, LoadBoth, answers, 0), answers(0)) == NoMessages
            && TablesAt(db, LoadBoth, answers, 1) == db && ArchiveAt(db, LoadBoth, answers, 1) == map[]
  {
    var db, answer := BothDelivered(row), Works.(failingList := Some(0));
    BothAreLoaded(row);
    DeleteNone(db);
    var answers := Always(answer);
    assert PageAt(db, LoadBoth, answers, 0) == [] && FailsAt(db, LoadBoth, answers, 0);
  }

  /** The message, when it is completely delivered. */
  function LoadOne(n: nat, db: Db): seq<MessageId> {
    if CompletelyDelivered(db, 1) then [1] else []
  }

  /**
    A run with failed loads: the consumer of a job, or the channel or producer of its message,
    can not be loaded. The record is written without it, message and job are deleted, and the
    run ends in its second round without an error.
   */
  lemma FailedLoads(row: MessageRow, job: JobRow, answer: Answer)
    requires row.status == Dispatched && job.message == 1 && job.status == Delivered
    requires answer == Works.(orphans := answer.orphans, bareJobs := answer.bareJobs) && (1 in answer.orphans || 7 in answer.bareJobs)
    ensures var db, answers := Db(map[1 := row], map[7 := job], map[], {}, 0), Always(answer);
            && LoadsDelivered(LoadOne) && IsLast(db, LoadOne, answers, 1)
            && RunFails(db, LoadOne, answers, 1) && !IsReportedAt(db, LoadOne, answers, 1)
            && TablesAt(db, LoadOne, answers, 1) == Db(map[], map[], map[], {}, 0)
            && ArchiveAt(db, LoadOne, answers, 1) == map[1 := Record(row, 1 in answer.orphans, map[7 := job], {7} * answer.bareJobs)]
  {
    var db, answers := Db(map[1 := row], map[7 := job], map[], {}, 0), Always(answer);
    assert CompletelyDelivered(db, 1) && PageAt(db, LoadOne, answers, 0) == [1];
    OneRound(db, row, job, answer);
    assert TablesAt(db, LoadOne, answers, 1) == AfterRound(db, [1], answer);
    assert PageAt(db, LoadOne, answers, 1) == [];
    assert FailsAt(db, LoadOne, answers, 0) && IsCleanAt(db, LoadOne, answers, 0);
    forall n, t, m | m in LoadOne(n, t) ensures CompletelyDelivered(t, m) { }
  }

  lemma OneRound(db: Db, row: MessageRow, job: JobRow, answer: Answer)
    requires db == Db(map[1 := row], map[7 := job], map[], {}, 0) && job.message == 1
    requires answer == Works.(orphans := answer.orphans, bareJobs := answer.bareJobs) && (1 in answer.orphans || 7 in answer.bareJobs)
    ensures AfterRound(db, [1], answer) == Db(map[], map[], map[], {}, 0) && HasFailure(db, [1], answer)
    ensures Records(db, Archived([1], answer), answer) == map[1 := Record(row, 1 in answer.orphans, map[7 := job], {7} * answer.bareJobs)]
  {
    assert Listed([1]) == {1} && JobsOf(db, {1}) == {7} && JobsFor(db, 1) == map[7 := job];
    assert JobsFor(db, 1).Keys == {7} && Written([1], answer) == [1];
    if 1 in answer.orphans { assert 1 in Listed([1]) * answer.orphans; }
    if 7 in answer.bareJobs { assert 7 in JobsOf(db, Listed([1])) * answer.bareJobs; }
  }

  // ---------- the run ----------

  lemma EndingIsReported(page: seq<MessageId>, answer: Answer)
    requires page != [] && !IsClean(page, answer)
    ensures IsReported(page, answer) <==> EndingOf(page, answer) != WriteFailed(false)
  {
    assert Written(page, answer) == [] <==> answer.failingWrite == Some(0);
  }

  /** Where a run stands: what was deleted is gone from the tables and is in the archive. */
  ghost predicate IsKept(db0: Db, db: Db, archive: Archive, deleted: set<MessageId>) {
    db == DeleteMessagesAndJobs(db0, deleted) && AllArchived(archive, db0, deleted)
  }

  lemma RoundIsKept(db0: Db, db: Db, before: Archive, deleted: set<MessageId>, page: seq<MessageId>, answer: Answer)
    requires IsKept(db0, db, before, deleted) && AllDelivered(db, page)
    ensures IsKept(db0, AfterRound(db, page, answer), before + Records(db, Archived(page, answer), answer), deleted + Removed(page, answer))
  {
    var ms, removed := Archived(page, answer), Removed(page, answer);
    RecordsStay(db0, deleted, db, before, ms, answer);
    DeleteBoth(db0, deleted, removed);
    FewerArchived(before + Records(db, ms, answer), db0, deleted + ms, deleted + removed);
  }

  lemma FewerArchived(archive: Archive, db: Db, more: set<MessageId>, fewer: set<MessageId>)
    requires AllArchived(archive, db, more) && fewer <= more
    ensures AllArchived(archive, db, fewer)
  {
    forall m | m in fewer ensures IsArchived(archive, db, m) && CompletelyDelivered(db, m) {
      assert m in more;
    }
  }

  lemma RecordKeys(db: Db, before: Archive, deleted: set<MessageId>, ms: set<MessageId>, answer: Answer)
    requires before.Keys == deleted && forall m | m in ms :: m in db.messages
    ensures (before + Records(db, ms, answer)).Keys == deleted + ms
  {
    assert Records(db, ms, answer).Keys == ms;
  }

  lemma PageIsDelivered(load: Query, k: nat, db: Db, answer: Answer)
    requires LoadsDelivered(load)
    ensures AllDelivered(db, PageOf(load, k, db, answer))
  {
    forall m | m in PageOf(load, k, db, answer) ensures CompletelyDelivered(db, m) {
      assert m in load(k, db);
    }
  }

  /** Archives the page and deletes what was written; says why, if the run is to end here. */
  method PruneRound(repo: Repository, page: seq<MessageId>, answer: Answer, before: Archive)
    returns (end: Option<Ending>, archive: Archive, removed: set<MessageId>)
    requires page != [] && AllDelivered(repo.tables, page)
    modifies repo
    ensures repo.tables == AfterRound(old(repo.tables), page, answer) && removed == Removed(page, answer)
    ensures archive == before + Records(old(repo.tables), Archived(page, answer), answer)
    ensures end == if IsClean(page, answer) then None else Some(EndingOf(page, answer))
  {
    DeleteNone(repo.tables);
    assert Listed([]) == {};
    if !answer.jobsLoaded { return Some(JobsNotLoaded), before, {}; }
    var written;
    archive, written := ArchivePage(repo.tables, page, answer, before);
    if written == [] { return Some(WriteFailed(true)), archive, {}; }
    if !answer.deleted { return Some(DeleteFailed), archive, {}; }
    repo.DeleteMessagesAndJobs(written);
    return if |written| < |page| then Some(WriteFailed(false)) else None, archive, Listed(written);
  }

  /** Where a run stands before round `k`. */
  ghost predicate IsOnTheWay(db0: Db, load: Query, answers: nat -> Answer, k: nat, db: Db, archive: Archive, deleted: set<MessageId>) {
    && db == TablesAt(db0, load, answers, k) && archive == ArchiveAt(db0, load, answers, k)
    && (forall j: nat | j < k :: IsCleanAt(db0, load, answers, j))
    && IsKept(db0, db, archive, deleted) && archive.Keys == deleted
  }

  /** The error, the ending, the tables and the archive are those of round `k`. */
  ghost predicate EndsWith(db0: Db, load: Query, answers: nat -> Answer, k: nat,
                           failed: bool, ending: Ending, db: Db, archive: Archive, deleted: set<MessageId>)
  {
    var page := PageAt(db0, load, answers, k);
    && failed == IsReportedAt(db0, load, answers, k) && ending == EndingOf(page, answers(k))
    && db == TablesAt(db0, load, answers, k + 1) && archive == ArchiveAt(db0, load, answers, k + 1)
    && archive.Keys == deleted + if ending.DeleteFailed? then Archived(page, answers(k)) else {}
  }

  lemma NextTables(db0: Db, load: Query, answers: nat -> Answer, k: nat)
    ensures var db, page := TablesAt(db0, load, answers, k), PageAt(db0, load, answers, k);
            && TablesAt(db0, load, answers, k + 1) == AfterRound(db, page, answers(k))
            && ArchiveAt(db0, load, answers, k + 1) == ArchiveAt(db0, load, answers, k) + Records(db, Archived(page, answers(k)), answers(k))
  {
  }

  lemma CleanRoundTakesAll(page: seq<MessageId>, answer: Answer)
    requires IsClean(page, answer)
    ensures Removed(page, answer) == Listed(page) && Archived(page, answer) == Listed(page)
  {
  }

  lemma PageKeys(db: Db, before: Archive, deleted: set<MessageId>, page: seq<MessageId>, answer: Answer)
    requires before.Keys == deleted && AllDelivered(db, page)
    ensures (before + Records(db, Archived(page, answer), answer)).Keys == deleted + Archived(page, answer)
  {
    forall m | m in Archived(page, answer) ensures m in db.messages {
      assert m in page && CompletelyDelivered(db, m);
    }
    RecordKeys(db, before, deleted, Archived(page, answer), answer);
  }

  lemma RoundIsShorter(db: Db, page: seq<MessageId>, answer: Answer)
    requires AllDelivered(db, page) && IsClean(page, answer)
    ensures |AfterRound(db, page, answer).messages| < |db.messages|
  {
    assert CompletelyDelivered(db, page[0]);
    FewerMessages(db, page);
    CleanRoundTakesAll(page, answer);
  }

  lemma RoundGoesOn(db0: Db, load: Query, answers: nat -> Answer, k: nat,
                    db: Db, page: seq<MessageId>, before: Archive, deleted: set<MessageId>, t: Db, archive: Archive, deleted': set<MessageId>)
    requires IsOnTheWay(db0, load, answers, k, db, before, deleted) && IsClean(page, answers(k))
    requires page == PageAt(db0, load, answers, k) && t == AfterRound(db, page, answers(k))
    requires archive == before + Records(db, Archived(page, answers(k)), answers(k))
    requires IsKept(db0, t, archive, deleted') && archive.Keys == deleted'
    ensures IsOnTheWay(db0, load, answers, k + 1, t, archive, deleted')
  {
    NextTables(db0, load, answers, k);
    forall j: nat | j < k + 1 ensures IsCleanAt(db0, load, answers, j) {
    }
  }

  lemma RoundEnds(db0: Db, load: Query, answers: nat -> Answer, k: nat,
                  db: Db, page: seq<MessageId>, before: Archive, deleted: set<MessageId>)
    requires IsOnTheWay(db0, load, answers, k, db, before, deleted) && page != [] && !IsClean(page, answers(k))
    requires page == PageAt(db0, load, answers, k) && AllDelivered(db, page)
    ensures var ending := EndingOf(page, answers(k));
            EndsWith(db0, load, answers, k, ending != WriteFailed(false), ending, AfterRound(db, page, answers(k)),
                     before + Records(db, Archived(page, answers(k)), answers(k)), deleted + Removed(page, answers(k)))
  {
    NextTables(db0, load, answers, k);
    EndingIsReported(page, answers(k));
    PageKeys(db, before, deleted, page, answers(k));
    assert Listed([]) == {};
  }

  lemma RoundStops(db0: Db, load: Query, answers: nat -> Answer, k: nat, db: Db, page: seq<MessageId>, before: Archive, deleted: set<MessageId>)
    requires IsOnTheWay(db0, load, answers, k, db, before, deleted) && page != [] && !IsClean(page, answers(k))
    requires page == PageAt(db0, load, answers, k)
    ensures IsLast(db0, load, answers, k) && !NothingFails(answers)
  {
    assert !IsCleanAt(db0, load, answers, k);
    if NothingFails(answers) { NoFailureLeavesNothing(db0, load, answers, k); }
  }

  lemma EmptyRoundKeeps(db: Db, archive: Archive, answer: Answer)
    ensures AfterRound(db, [], answer) == db && archive + Records(db, Archived([], answer), answer) == archive
  {
    DeleteNone(db);
    assert Written([], answer) == [] && Listed([]) == {};
    assert Records(db, {}, answer) == map[];
  }

  lemma EmptyRoundEnds(db0: Db, load: Query, answers: nat -> Answer, k: nat, db: Db, archive: Archive, deleted: set<MessageId>)
    requires IsOnTheWay(db0, load, answers, k, db, archive, deleted) && PageAt(db0, load, answers, k) == []
    ensures EndsWith(db0, load, answers, k, false, NoMessages, db, archive, deleted) && IsLast(db0, load, answers, k)
  {
    NextTables(db0, load, answers, k);
    EmptyRoundKeeps(db, archive, answers(k));
  }

  /** A clean round, from the parts above. */
  lemma RoundGoesOnFrom(db0: Db, load: Query, answers: nat -> Answer, k: nat, db: Db, page: seq<MessageId>, before: Archive, deleted: set<MessageId>)
    requires IsOnTheWay(db0, load, answers, k, db, before, deleted) && IsClean(page, answers(k))
    requires page == PageAt(db0, load, answers, k) && AllDelivered(db, page)
    ensures IsOnTheWay(db0, load, answers, k + 1, AfterRound(db, page, answers(k)),
                       before + Records(db, Archived(page, answers(k)), answers(k)), deleted + Removed(page, answers(k)))
    ensures |AfterRound(db, page, answers(k)).messages| < |db.messages|
  {
    RoundIsKept(db0, db, before, deleted, page, answers(k));
    PageKeys(db, before, deleted, page, answers(k));
    CleanRoundTakesAll(page, answers(k));
    RoundIsShorter(db, page, answers(k));
    RoundGoesOn(db0, load, answers, k, db, page, before, deleted, AfterRound(db, page, answers(k)),
                before + Records(db, Archived(page, answers(k)), answers(k)), deleted + Removed(page, answers(k)));
  }

  /**
    The result of a run whose last round is `k`. What is deleted is exactly `deleted`, and every
    deleted message is in the archive with all its jobs. The ending, the error, the tables and the
    archive are those of the last round, which has nothing left to load when it lists no message
    and the list query works, and so when no answer is one of a failure.
   */
  ghost predicate HasEnded(db0: Db, load: Query, answers: nat -> Answer, k: nat,
                           failed: bool, ending: Ending, db: Db, archive: Archive, deleted: set<MessageId>)
  {
    && IsKept(db0, db, archive, deleted) && IsLast(db0, load, answers, k)
    && EndsWith(db0, load, answers, k, failed, ending, db, archive, deleted)
    && (ending.NoMessages? && answers(k).failingList.None? ==> load(k, db) == [])
    && (NothingFails(answers) ==> !failed && ending.NoMessages? && load(k, db) == [])
  }

  lemma RunEndsEmpty(db0: Db, load: Query, answers: nat -> Answer, k: nat, db: Db, archive: Archive, deleted: set<MessageId>)
    requires IsOnTheWay(db0, load, answers, k, db, archive, deleted) && PageAt(db0, load, answers, k) == []
    ensures HasEnded(db0, load, answers, k, false, NoMessages, db, archive, deleted)
  {
    EmptyRoundEnds(db0, load, answers, k, db, archive, deleted);
    if NothingFails(answers) { NoFailureLeavesNothing(db0, load, answers, k); }
  }

  lemma RunStops(db0: Db, load: Query, answers: nat -> Answer, k: nat, db: Db, page: seq<MessageId>, before: Archive, deleted: set<MessageId>)
    requires IsOnTheWay(db0, load, answers, k, db, before, deleted) && page != [] && !IsClean(page, answers(k))
    requires page == PageAt(db0, load, answers, k) && AllDelivered(db, page)
    ensures var ending := EndingOf(page, answers(k));
            HasEnded(db0, load, answers, k, ending != WriteFailed(false), ending, AfterRound(db, page, answers(k)),
                     before + Records(db, Archived(page, answers(k)), answers(k)), deleted + Removed(page, answers(k)))
  {
    RoundIsKept(db0, db, before, deleted, page, answers(k));
    RoundEnds(db0, load, answers, k, db, page, before, deleted);
    RoundStops(db0, load, answers, k, db, page, before, deleted);
  }

  /** `rounds` is the last round reached. */
  method PruneMessages(repo: Repository, load: Query, answers: nat -> Answer)
    returns (failed: bool, ending: Ending, archive: Archive, deleted: set<MessageId>, ghost rounds: nat)
    requires LoadsDelivered(load)
    modifies repo
    ensures HasEnded(old(repo.tables), load, answers, rounds, failed, ending, repo.tables, archive, deleted)
  {
    ghost var db0 := repo.tables;
    archive, deleted, rounds := map[], {}, 0;
    var n := 0;
    assert DeleteMessagesAndJobs(db0, {}) == db0 by { DeleteNone(db0); assert Listed([]) == {}; }
    while true
      invariant rounds == n && IsOnTheWay(db0, load, answers, n, repo.tables, archive, deleted)
      decreases |repo.tables.messages|
    {
      var page := PageOf(load, n, repo.tables, answers(n));
      PageIsDelivered(load, n, repo.tables, answers(n));
      if page == [] {
        RunEndsEmpty(db0, load, answers, n, repo.tables, archive, deleted);
        return false, NoMessages, archive, deleted, rounds;
      }
      ghost var db, before := repo.tables, archive;
      var end, removed;
      end, archive, removed := PruneRound(repo, page, answers(n), archive);
      if end.Some? {
        RunStops(db0, load, answers, n, db, page, before, deleted);
        return end.value != WriteFailed(false), end.value, archive, deleted + removed, rounds;
      }
      RoundGoesOnFrom(db0, load, answers, n, db, page, before, deleted);
      deleted, n, rounds := deleted + removed, n + 1, rounds + 1;
    }
  }
}
