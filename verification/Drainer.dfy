/**
  One drain run: a page per consumer per round, until every consumer is drained or the run is
  cut short. The log says which page each turn moved.
 */
module Drainer {
  import opened Collections
  import opened Types
  import opened Transactions
  import opened Repositories
  import Placement
  import Protocol
  import opened Worker

  /** What the outside answers in one turn of the loop. */
  datatype Answer =
    | Cut                                                      // stopping, or the hand-off is saturated
    | NotLoaded                                                // the consumer could not be loaded
    | NotDrained                                               // the drain transaction failed and was rolled back
    | Turn(now: Time, populated: bool, renewed: bool)          // whether loading the moved jobs and renewing the lock work

  /** `Failed` drops the consumer from the run; its page is what had been moved before the failure. */
  datatype Event =
    | Paged(consumer: ConsumerId, page: seq<ParkedEntry>)
    | Finished(consumer: ConsumerId)
    | Failed(consumer: ConsumerId, page: seq<ParkedEntry>)

  function PageOf(event: Event, c: ConsumerId): seq<ParkedEntry> {
    if event.consumer != c || event.Finished? then [] else event.page
  }

  /** The rows of the consumer in the order in which they left. */
  function RowsOf(log: seq<Event>, c: ConsumerId): seq<ParkedEntry> {
    if log == [] then [] else
    var n := |log| - 1;
    RowsOf(log[..n], c) + PageOf(log[n], c)
  }

  function Pages(log: seq<Event>, c: ConsumerId): nat {
    if log == [] then 0 else
    var n := |log| - 1;
    Pages(log[..n], c) + if log[n].Paged? && log[n].consumer == c then 1 else 0
  }

  /** The consumer has left the run. */
  ghost predicate Ended(log: seq<Event>, c: ConsumerId) {
    exists i :: 0 <= i < |log| && log[i].consumer == c && !log[i].Paged?
  }

  ghost predicate HasFailed(log: seq<Event>, c: ConsumerId) {
    exists i :: 0 <= i < |log| && log[i].consumer == c && log[i].Failed?
  }

  // ---------- pages leave in order ----------

  lemma DropCons(rows: map<nat, ParkedRow>, e: ParkedEntry, rest: seq<ParkedEntry>)
    ensures (rows - {e.seqNo}) - SeqNos(rest) == rows - SeqNos([e] + rest)
  {
    SeqNosCons(e, rest);
  }

  lemma NothingTaken(rows: map<nat, ParkedRow>)
    ensures rows - SeqNos([]) == rows
  {
    assert SeqNos([]) == {};
  }

  lemma {:induction false} OldestRowsSplit(rows: map<nat, ParkedRow>, a: nat, b: nat)
    ensures OldestRows(rows, a + b) == OldestRows(rows, a) + OldestRows(rows - SeqNos(OldestRows(rows, a)), b)
    decreases a
  {
    if a == 0 || rows == map[] {
      NothingTaken(rows);
    } else {
      var k := Oldest(rows);
      OldestRowsSplit(rows - {k}, a - 1, b);
      DropCons(rows, ParkedEntry(k, rows[k]), OldestRows(rows - {k}, a - 1));
    }
  }

  lemma SeqNosCons(e: ParkedEntry, rest: seq<ParkedEntry>)
    ensures SeqNos([e] + rest) == {e.seqNo} + SeqNos(rest)
  {
    var all := [e] + rest;
    forall k | k in {e.seqNo} + SeqNos(rest) ensures k in SeqNos(all) {
      if k == e.seqNo {
        assert all[0].seqNo == k;
      } else {
        var i :| 0 <= i < |rest| && rest[i].seqNo == k;
        assert all[i + 1].seqNo == k;
      }
    }
    forall k | k in SeqNos(all) ensures k in {e.seqNo} + SeqNos(rest) {
      var i :| 0 <= i < |all| && all[i].seqNo == k;
      if i > 0 { assert rest[i - 1].seqNo == k; }
    }
  }

  lemma SeqNosConcat(a: seq<ParkedEntry>, b: seq<ParkedEntry>)
    ensures SeqNos(a + b) == SeqNos(a) + SeqNos(b)
  {
    forall k | k in SeqNos(a) + SeqNos(b) ensures k in SeqNos(a + b) {
      if k in SeqNos(a) {
        var i :| 0 <= i < |a| && a[i].seqNo == k;
        assert (a + b)[i].seqNo == k;
      } else {
        var i :| 0 <= i < |b| && b[i].seqNo == k;
        assert (a + b)[|a| + i].seqNo == k;
      }
    }
    forall k | k in SeqNos(a + b) ensures k in SeqNos(a) + SeqNos(b) {
      var i :| 0 <= i < |a + b| && (a + b)[i].seqNo == k;
      if i < |a| { assert a[i].seqNo == k; } else { assert b[i - |a|].seqNo == k; }
    }
  }

  lemma {:induction false} OldestRowsSize(rows: map<nat, ParkedRow>, limit: nat)
    ensures |OldestRows(rows, limit)| == if limit < |rows| then limit else |rows|
    decreases limit
  {
    if limit > 0 && rows != map[] {
      var k := Oldest(rows);
      assert (rows - {k}).Keys == rows.Keys - {k};
      OldestRowsSize(rows - {k}, limit - 1);
    }
  }

  lemma {:induction false} OldestRowsExhaust(rows: map<nat, ParkedRow>, limit: nat)
    requires |rows| <= limit
    ensures rows - SeqNos(OldestRows(rows, limit)) == map[]
    decreases limit
  {
    if limit > 0 && rows != map[] {
      var k := Oldest(rows);
      assert (rows - {k}).Keys == rows.Keys - {k};
      OldestRowsExhaust(rows - {k}, limit - 1);
      DropCons(rows, ParkedEntry(k, rows[k]), OldestRows(rows - {k}, limit - 1));
    }
  }

  ghost predicate SortedFrom(rows: map<nat, ParkedRow>, page: seq<ParkedEntry>) {
    && (forall i, j | 0 <= i < j < |page| :: OlderParked(page[i], page[j]))
    && forall i, k | 0 <= i < |page| && k in rows && k !in SeqNos(page) :: OlderParked(page[i], ParkedEntry(k, rows[k]))
  }

  lemma SortedCons(rows: map<nat, ParkedRow>, first: ParkedEntry, rest: seq<ParkedEntry>)
    requires IsOldest(rows, first.seqNo) && first.row == rows[first.seqNo] && SortedFrom(rows - {first.seqNo}, rest)
    requires forall i | 0 <= i < |rest| :: rest[i].seqNo in rows - {first.seqNo} && rest[i].row == rows[rest[i].seqNo]
    ensures SortedFrom(rows, [first] + rest)
  {
    var page := [first] + rest;
    SeqNosCons(first, rest);
    forall i, j | 0 <= i < j < |page| ensures OlderParked(page[i], page[j]) {
      assert page[j] == rest[j - 1] && page[j] == ParkedEntry(rest[j - 1].seqNo, rows[rest[j - 1].seqNo]);
      if i > 0 { assert OlderParked(rest[i - 1], rest[j - 1]); }
    }
    forall i, k | 0 <= i < |page| && k in rows && k !in SeqNos(page) ensures OlderParked(page[i], ParkedEntry(k, rows[k])) {
      if i > 0 { assert k in rows - {first.seqNo} && k !in SeqNos(rest) && page[i] == rest[i - 1]; }
    }
  }

  /** A page is in (createdAt, seq) order and everything it leaves behind comes later. */
  lemma {:induction false} OldestRowsAreSorted(rows: map<nat, ParkedRow>, limit: nat)
    ensures SortedFrom(rows, OldestRows(rows, limit))
    decreases limit
  {
    if limit > 0 && rows != map[] {
      var first := ParkedEntry(Oldest(rows), rows[Oldest(rows)]);
      OldestRowsAreSorted(rows - {first.seqNo}, limit - 1);
      SortedCons(rows, first, OldestRows(rows - {first.seqNo}, limit - 1));
    }
  }

  lemma OldestRowsExactly(rows: map<nat, ParkedRow>, limit: nat)
    ensures OldestRows(rows, |OldestRows(rows, limit)|) == OldestRows(rows, limit)
  {
    var n := |OldestRows(rows, limit)|;
    OldestRowsSize(rows, limit);
    if n < limit {
      OldestRowsSplit(rows, n, limit - n);
      OldestRowsExhaust(rows, n);
    }
  }

  /**
    What a drain reads: nothing while the consumer is paused or for a page size that is not
    positive; else its oldest parked rows in (createdAt, seq) order, as many as the page takes.
   */
  lemma ReadIsOldest(db: Db, c: ConsumerId, pageSize: int)
    ensures var page, rows := ReadDrainPage(db, c, pageSize), ParkedOf(db, c);
            if pageSize <= 0 || Global in db.pauses || Consumer(c) in db.pauses then page == []
            else SortedFrom(rows, page) && |page| == if |rows| < pageSize then |rows| else pageSize
  {
    if pageSize > 0 {
      OldestRowsAreSorted(ParkedOf(db, c), pageSize);
      OldestRowsSize(ParkedOf(db, c), pageSize);
    }
  }

  // ---------- what one turn does ----------

  ghost predicate Commits(db: Db, t: Db, page: seq<ParkedEntry>) {
    exists earliest, now :: CommitDrainPage(db, page, earliest, now) == Some(t)
  }

  ghost predicate MovesPage(db: Db, t: Db, c: ConsumerId, page: seq<ParkedEntry>, pageSize: int) {
    page != [] && page == ReadDrainPage(db, c, pageSize) && Commits(db, t, page)
  }

  ghost predicate TurnStep(db: Db, t: Db, event: Event, pageSize: int) {
    match event
    case Paged(c, page) => MovesPage(db, t, c, page, pageSize)
    case Finished(c) => t == db && ReadDrainPage(db, c, pageSize) == []
    case Failed(c, page) => (page == [] && t == db) || MovesPage(db, t, c, page, pageSize)
  }

  /** The consumer's rows left oldest first, and the others are still parked. */
  ghost predicate Accounted(db0: Db, db: Db, log: seq<Event>, c: ConsumerId) {
    && RowsOf(log, c) == OldestRows(ParkedOf(db0, c), |RowsOf(log, c)|)
    && ParkedOf(db, c) == ParkedOf(db0, c) - SeqNos(RowsOf(log, c))
  }

  lemma CommitDeletes(db: Db, t: Db, page: seq<ParkedEntry>)
    requires Commits(db, t, page)
    ensures t.parked == db.parked - SeqNos(page) && t.pauses == db.pauses && t.messages == db.messages
  {
  }

  lemma PageIsOfConsumer(db: Db, c: ConsumerId, pageSize: int, k: nat)
    requires k in SeqNos(ReadDrainPage(db, c, pageSize))
    ensures k in db.parked && db.parked[k].consumer == c
  {
    var page := ReadDrainPage(db, c, pageSize);
    var i :| 0 <= i < |page| && page[i].seqNo == k;
  }

  lemma DeletedRowsOf(db: Db, t: Db, gone: set<nat>, c: ConsumerId, other: ConsumerId)
    requires t.parked == db.parked - gone && forall k | k in gone :: k in db.parked && db.parked[k].consumer == c
    ensures ParkedOf(t, other) == if other == c then ParkedOf(db, c) - gone else ParkedOf(db, other)
  {
  }

  lemma MoveTakesRows(db: Db, t: Db, c: ConsumerId, page: seq<ParkedEntry>, pageSize: int, other: ConsumerId)
    requires MovesPage(db, t, c, page, pageSize)
    ensures ParkedOf(t, other) == if other == c then ParkedOf(db, c) - SeqNos(page) else ParkedOf(db, other)
  {
    CommitDeletes(db, t, page);
    forall k | k in SeqNos(page) ensures k in db.parked && db.parked[k].consumer == c {
      PageIsOfConsumer(db, c, pageSize, k);
    }
    DeletedRowsOf(db, t, SeqNos(page), c, other);
  }

  lemma MoveShrinks(db: Db, t: Db, c: ConsumerId, page: seq<ParkedEntry>, pageSize: int)
    requires MovesPage(db, t, c, page, pageSize)
    ensures |t.parked| < |db.parked|
  {
    CommitDeletes(db, t, page);
    assert page[0].seqNo in SeqNos(page) && page[0].seqNo in db.parked;
    SubsetSize(t.parked.Keys, db.parked.Keys - {page[0].seqNo});
  }

  lemma RowsOfGrow(log: seq<Event>, event: Event, c: ConsumerId)
    ensures RowsOf(log + [event], c) == RowsOf(log, c) + PageOf(event, c)
  {
    assert (log + [event])[..|log|] == log;
  }

  /** After the first rows come the next ones. */
  lemma NextPage(rows: map<nat, ParkedRow>, out: seq<ParkedEntry>, page: seq<ParkedEntry>, limit: nat)
    requires out == OldestRows(rows, |out|) && page == OldestRows(rows - SeqNos(out), limit)
    ensures out + page == OldestRows(rows, |out + page|)
    ensures rows - SeqNos(out + page) == (rows - SeqNos(out)) - SeqNos(page)
  {
    OldestRowsExactly(rows - SeqNos(out), limit);
    OldestRowsSplit(rows, |out|, |page|);
    SeqNosConcat(out, page);
  }

  lemma PagingKeepsRows(db0: Db, db: Db, t: Db, log: seq<Event>, event: Event, pageSize: int, c: ConsumerId)
    requires Accounted(db0, db, log, c) && !event.Finished? && MovesPage(db, t, event.consumer, event.page, pageSize)
    ensures Accounted(db0, t, log + [event], c)
  {
    RowsOfGrow(log, event, c);
    MoveTakesRows(db, t, event.consumer, event.page, pageSize, c);
    if event.consumer == c {
      NextPage(ParkedOf(db0, c), RowsOf(log, c), event.page, pageSize);
    } else {
      assert RowsOf(log + [event], c) == RowsOf(log, c);
    }
  }

  lemma TurnKeepsRows(db0: Db, db: Db, t: Db, log: seq<Event>, event: Event, pageSize: int, c: ConsumerId)
    requires Accounted(db0, db, log, c) && TurnStep(db, t, event, pageSize)
    ensures Accounted(db0, t, log + [event], c)
  {
    if event.Finished? || event.page == [] {
      RowsOfGrow(log, event, c);
      assert RowsOf(log + [event], c) == RowsOf(log, c);
    } else {
      PagingKeepsRows(db0, db, t, log, event, pageSize, c);
    }
  }

  // ---------- the moved rows are queued jobs ----------

  /** The parked row is now a QUEUED job with everything it had when it was parked. */
  ghost predicate DrainedAs(db: Db, e: ParkedEntry) {
    && e.row.id in db.jobs
    && db.jobs[e.row.id] == DrainedRow(e.row, db.jobs[e.row.id].earliestNextAttemptAt, db.jobs[e.row.id].updatedAt)
  }

  ghost predicate KeepsJobs(db: Db, t: Db) {
    forall id | id in db.jobs :: id in t.jobs && t.jobs[id] == db.jobs[id]
  }

  lemma InsertKeeps(db: Db, entries: seq<JobEntry>)
    requires CanInsertJobs(db, entries)
    ensures var t := InsertJobs(db, entries).value;
            KeepsJobs(db, t) && forall i | 0 <= i < |entries| :: entries[i].id in t.jobs && t.jobs[entries[i].id] == entries[i].row
  {
  }

  lemma MoveQueues(db: Db, t: Db, page: seq<ParkedEntry>)
    requires Commits(db, t, page)
    ensures KeepsJobs(db, t) && forall e | e in page :: DrainedAs(t, e)
  {
    var earliest, now :| CommitDrainPage(db, page, earliest, now) == Some(t);
    var entries := DrainedEntries(page, earliest, now);
    InsertKeeps(db.(parked := db.parked - SeqNos(page)), entries);
    forall e | e in page ensures DrainedAs(t, e) {
      var i :| 0 <= i < |page| && page[i] == e;
      DrainedEntryIs(t, page, i, earliest, now);
    }
  }

  lemma DrainedEntryIs(t: Db, page: seq<ParkedEntry>, i: nat, earliest: Time, now: Time)
    requires i < |page|
    requires var entry := DrainedEntries(page, earliest, now)[i]; entry.id in t.jobs && t.jobs[entry.id] == entry.row
    ensures DrainedAs(t, page[i])
  {
  }

  ghost predicate AllQueued(db: Db, log: seq<Event>, c: ConsumerId) {
    forall e | e in RowsOf(log, c) :: DrainedAs(db, e)
  }

  lemma TurnQueues(db: Db, t: Db, log: seq<Event>, event: Event, pageSize: int, c: ConsumerId)
    requires TurnStep(db, t, event, pageSize) && AllQueued(db, log, c)
    ensures KeepsJobs(db, t) && AllQueued(t, log + [event], c)
  {
    RowsOfGrow(log, event, c);
    if !event.Finished? && event.page != [] { MoveQueues(db, t, event.page); }
  }

  // ---------- finished consumers have nothing left ----------

  ghost predicate Emptied(db: Db, c: ConsumerId, pageSize: int) {
    pageSize <= 0 || Paused(db, c) || ParkedOf(db, c) == map[]
  }

  ghost predicate FinishedAreEmpty(db: Db, log: seq<Event>, pageSize: int) {
    forall i | 0 <= i < |log| && log[i].Finished? :: Emptied(db, log[i].consumer, pageSize)
  }

  lemma EmptyPage(db: Db, c: ConsumerId, pageSize: int)
    requires ReadDrainPage(db, c, pageSize) == []
    ensures Emptied(db, c, pageSize)
  {
    if pageSize > 0 && !Paused(db, c) { OldestRowsSize(ParkedOf(db, c), pageSize); }
  }

  lemma TurnKeepsEmpty(db: Db, t: Db, event: Event, pageSize: int, c: ConsumerId)
    requires TurnStep(db, t, event, pageSize) && Emptied(db, c, pageSize)
    ensures Emptied(t, c, pageSize)
  {
    if !event.Finished? && event.page != [] {
      CommitDeletes(db, t, event.page);
      MoveTakesRows(db, t, event.consumer, event.page, pageSize, c);
    }
  }

  lemma TurnKeepsFinished(db: Db, t: Db, log: seq<Event>, event: Event, pageSize: int)
    requires TurnStep(db, t, event, pageSize) && FinishedAreEmpty(db, log, pageSize)
    ensures FinishedAreEmpty(t, log + [event], pageSize)
  {
    forall i | 0 <= i <= |log| && (log + [event])[i].Finished? ensures Emptied(t, (log + [event])[i].consumer, pageSize) {
      if i == |log| { EmptyPage(db, event.consumer, pageSize); }
      TurnKeepsEmpty(db, t, event, pageSize, (log + [event])[i].consumer);
    }
  }

  // ---------- the run so far ----------

  ghost predicate RowIsSound(db0: Db, db: Db, log: seq<Event>, c: ConsumerId) {
    Accounted(db0, db, log, c) && AllQueued(db, log, c)
  }

  ghost predicate RunIsSound(db0: Db, db: Db, log: seq<Event>, pageSize: int) {
    && db.pauses == db0.pauses && db.messages == db0.messages
    && KeepsJobs(db0, db) && FinishedAreEmpty(db, log, pageSize)
    && forall c {:trigger RowIsSound(db0, db, log, c)} :: RowIsSound(db0, db, log, c)
  }

  lemma RunBegins(db: Db, pageSize: int)
    ensures RunIsSound(db, db, [], pageSize)
  {
    forall c ensures RowIsSound(db, db, [], c) {
      assert SeqNos([]) == {};
    }
  }

  lemma TurnIsSound(db0: Db, db: Db, t: Db, log: seq<Event>, event: Event, pageSize: int)
    requires RunIsSound(db0, db, log, pageSize) && TurnStep(db, t, event, pageSize)
    ensures RunIsSound(db0, t, log + [event], pageSize)
  {
    forall c ensures RowIsSound(db0, t, log + [event], c) {
      assert RowIsSound(db0, db, log, c);
      TurnKeepsRows(db0, db, t, log, event, pageSize, c);
      TurnQueues(db, t, log, event, pageSize, c);
    }
    TurnKeepsFinished(db, t, log, event, pageSize);
    assert RowIsSound(db0, db, log, event.consumer);
    TurnQueues(db, t, log, event, pageSize, event.consumer);
    TurnFrames(db, t, event, pageSize);
  }

  lemma TurnFrames(db: Db, t: Db, event: Event, pageSize: int)
    requires TurnStep(db, t, event, pageSize)
    ensures t.pauses == db.pauses && t.messages == db.messages
  {
    if !event.Finished? && event.page != [] { CommitDeletes(db, t, event.page); }
  }

  // ---------- turns are fair ----------

  /** Consumers still in the run have had the same number of pages, give or take one. */
  ghost predicate InStep(log: seq<Event>, consumers: seq<ConsumerId>) {
    forall a, b | a in consumers && b in consumers && !Ended(log, a) && !Ended(log, b) :: Pages(log, a) <= Pages(log, b) + 1
  }

  /** ... at every moment of the run. */
  ghost predicate Fair(log: seq<Event>, consumers: seq<ConsumerId>) {
    forall n | 0 <= n <= |log| :: InStep(log[..n], consumers)
  }

  predicate Distinct(ids: seq<ConsumerId>) {
    forall i, j | 0 <= i < j < |ids| :: ids[i] != ids[j]
  }

  /** Where a consumer stands in the given round: served, waiting for its turn, or out of the run. */
  ghost predicate Standing(log: seq<Event>, c: ConsumerId, waiting: seq<ConsumerId>, served: seq<ConsumerId>, round: nat) {
    if c in served then !Ended(log, c) && Pages(log, c) == round + 1
    else if c in waiting then !Ended(log, c) && Pages(log, c) == round
    else Ended(log, c)
  }

  ghost predicate InRound(log: seq<Event>, consumers: seq<ConsumerId>, waiting: seq<ConsumerId>, served: seq<ConsumerId>, round: nat) {
    && Distinct(waiting) && Distinct(served) && (forall c | c in served :: c !in waiting)
    && (forall c | c in waiting :: c in consumers) && (forall c | c in served :: c in consumers)
    && forall c {:trigger Standing(log, c, waiting, served, round)} | c in consumers :: Standing(log, c, waiting, served, round)
  }

  lemma InRoundIsInStep(log: seq<Event>, consumers: seq<ConsumerId>, waiting: seq<ConsumerId>, served: seq<ConsumerId>, round: nat)
    requires InRound(log, consumers, waiting, served, round)
    ensures InStep(log, consumers)
  {
    forall a, b | a in consumers && b in consumers && !Ended(log, a) && !Ended(log, b) ensures Pages(log, a) <= Pages(log, b) + 1 {
      assert Standing(log, a, waiting, served, round) && Standing(log, b, waiting, served, round);
    }
  }

  lemma EventCounts(log: seq<Event>, event: Event, c: ConsumerId)
    ensures Pages(log + [event], c) == Pages(log, c) + if event.Paged? && event.consumer == c then 1 else 0
    ensures Ended(log + [event], c) <==> Ended(log, c) || (!event.Paged? && event.consumer == c)
  {
    var after := log + [event];
    assert after[..|log|] == log;
    if Ended(log, c) {
      var i :| 0 <= i < |log| && log[i].consumer == c && !log[i].Paged?;
      assert after[i] == log[i];
    }
    if !event.Paged? && event.consumer == c { assert after[|log|] == event; }
  }

  lemma EventKeepsRound(log: seq<Event>, event: Event, consumers: seq<ConsumerId>, waiting: seq<ConsumerId>, served: seq<ConsumerId>, round: nat)
    requires InRound(log, consumers, waiting, served, round) && waiting != [] && event.consumer == waiting[0]
    ensures InRound(log + [event], consumers, waiting[1..], if event.Paged? then served + [waiting[0]] else served, round)
  {
    var c := waiting[0];
    var served' := if event.Paged? then served + [c] else served;
    assert waiting == [c] + waiting[1..] && c in waiting && c in consumers;
    assert c !in waiting[1..];
    forall a | a in consumers ensures Standing(log + [event], a, waiting[1..], served', round) {
      assert Standing(log, a, waiting, served, round);
      EventCounts(log, event, a);
    }
  }

  lemma NextRound(log: seq<Event>, consumers: seq<ConsumerId>, served: seq<ConsumerId>, round: nat)
    requires InRound(log, consumers, [], served, round)
    ensures InRound(log, consumers, served, [], round + 1)
  {
    forall c | c in consumers ensures Standing(log, c, served, [], round + 1) {
      assert Standing(log, c, [], served, round);
    }
  }

  lemma FirstRound(consumers: seq<ConsumerId>)
    requires Distinct(consumers)
    ensures InRound([], consumers, consumers, [], 0) && Fair([], consumers)
  {
    assert forall c | c in consumers :: Standing([], c, consumers, [], 0);
    InRoundIsInStep([], consumers, consumers, [], 0);
    var log: seq<Event> := [];
    assert forall n | 0 <= n <= |log| :: log[..n] == log;
  }

  lemma FairGrows(log: seq<Event>, event: Event, consumers: seq<ConsumerId>)
    requires Fair(log, consumers) && InStep(log + [event], consumers)
    ensures Fair(log + [event], consumers)
  {
    var after := log + [event];
    forall n | 0 <= n <= |after| ensures InStep(after[..n], consumers) {
      if n <= |log| { assert after[..n] == log[..n]; } else { assert after[..n] == after; }
    }
  }

  // ---------- a turn, as the outside answers it ----------

  /** What a run is given: the configuration, the page size and the answer to each turn. */
  datatype Setting = Setting(cfg: Config, pageSize: int, answers: nat -> Answer)

  /** The event of a turn that read the given page. */
  function EventOf(c: ConsumerId, page: seq<ParkedEntry>, moved: bool, populated: bool): Event {
    if page == [] then Finished(c)
    else if !moved then Failed(c, [])
    else if populated then Paged(c, page)
    else Failed(c, page)
  }

  /** The event and the tables of a turn of consumer `c` under the given answer. */
  function TurnOf(db: Db, c: ConsumerId, setting: Setting, answer: Answer): (Event, Db) {
    if !answer.Turn? then (Failed(c, []), db) else
    var page := ReadDrainPage(db, c, setting.pageSize);
    var next := CommitDrainPage(db, page, DrainedUntil(setting.cfg, c, answer.now), answer.now);
    (EventOf(c, page, next.Some?, answer.populated), if next.Some? then next.value else db)
  }

  lemma TurnOfIsTurnStep(db: Db, c: ConsumerId, setting: Setting, answer: Answer)
    ensures var (event, t) := TurnOf(db, c, setting, answer);
            && event.consumer == c && TurnStep(db, t, event, setting.pageSize)
            && |t.parked| <= |db.parked| && (event.Paged? ==> answer.Turn? && |t.parked| < |db.parked|)
  {
    var (event, t) := TurnOf(db, c, setting, answer);
    if answer.Turn? { CommitNothing(db, DrainedUntil(setting.cfg, c, answer.now), answer.now); }
    if !event.Finished? && event.page != [] {
      assert Commits(db, t, event.page);
      MoveShrinks(db, t, c, event.page, setting.pageSize);
    }
  }

  /** The tables after the turns of the log. */
  function Replay(db0: Db, log: seq<Event>, setting: Setting): Db {
    if log == [] then db0 else
    var n := |log| - 1;
    TurnOf(Replay(db0, log[..n], setting), log[n].consumer, setting, setting.answers(n)).1
  }

  /** Event `n` is what the turn of its consumer gives under answer `n`, and that answer did not cut the run. */
  ghost predicate IsAnswered(db0: Db, log: seq<Event>, setting: Setting, n: nat)
    requires n < |log|
  {
    && !setting.answers(n).Cut?
    && log[n] == TurnOf(Replay(db0, log[..n], setting), log[n].consumer, setting, setting.answers(n)).0
  }

  /** The lock is lost with the last event: it moved a page and the renewal failed. */
  predicate LostAtEnd(log: seq<Event>, setting: Setting) {
    log != [] && log[|log| - 1].Paged? && setting.answers(|log| - 1).Turn? && !setting.answers(|log| - 1).renewed
  }

  /** Every event follows from its answer, and no event comes after a lost lock. */
  ghost predicate Explained(db0: Db, log: seq<Event>, setting: Setting) {
    && (forall n | 0 <= n < |log| :: IsAnswered(db0, log, setting, n))
    && forall n | 0 <= n < |log| :: !LostAtEnd(log[..n], setting)
  }

  lemma ExplainedGrows(db0: Db, log: seq<Event>, event: Event, setting: Setting)
    requires Explained(db0, log, setting) && !LostAtEnd(log, setting) && !setting.answers(|log|).Cut?
    requires event == TurnOf(Replay(db0, log, setting), event.consumer, setting, setting.answers(|log|)).0
    ensures Explained(db0, log + [event], setting)
    ensures Replay(db0, log + [event], setting) == TurnOf(Replay(db0, log, setting), event.consumer, setting, setting.answers(|log|)).1
  {
    var after := log + [event];
    assert after[..|log|] == log;
    forall n | 0 <= n < |after| ensures IsAnswered(db0, after, setting, n) && !LostAtEnd(after[..n], setting) {
      if n < |log| {
        assert after[..n] == log[..n] && IsAnswered(db0, log, setting, n) && !LostAtEnd(log[..n], setting);
      }
    }
  }

  // ---------- the run ----------

  method TakeTurn(repo: Repository, c: ConsumerId, setting: Setting, answer: Answer) returns (event: Event)
    requires repo.Valid() && !answer.Cut?
    modifies repo
    ensures repo.Valid() && (event, repo.tables) == TurnOf(old(repo.tables), c, setting, answer)
  {
    if !answer.Turn? { return Failed(c, []); }
    var page := ReadDrainPage(repo.tables, c, setting.pageSize);
    var jobs, ok := repo.DrainPage(c, setting.pageSize, DrainedUntil(setting.cfg, c, answer.now), answer.now, answer.populated);
    assert |jobs| == |Entries(jobs)|;
    return EventOf(c, page, |jobs| > 0, ok);
  }

  ghost predicate OnCourse(db0: Db, db: Db, log: seq<Event>, consumers: seq<ConsumerId>, setting: Setting) {
    RunIsSound(db0, db, log, setting.pageSize) && Fair(log, consumers) && Explained(db0, log, setting) && db == Replay(db0, log, setting)
  }

  lemma TurnStaysOnCourse(db0: Db, db: Db, log: seq<Event>, setting: Setting,
                          consumers: seq<ConsumerId>, active: seq<ConsumerId>, i: nat, served: seq<ConsumerId>, round: nat)
    requires OnCourse(db0, db, log, consumers, setting) && !LostAtEnd(log, setting) && !setting.answers(|log|).Cut?
    requires i < |active| && InRound(log, consumers, active[i..], served, round)
    ensures var (event, t) := TurnOf(db, active[i], setting, setting.answers(|log|));
            && OnCourse(db0, t, log + [event], consumers, setting)
            && InRound(log + [event], consumers, active[i + 1..], if event.Paged? then served + [active[i]] else served, round)
  {
    var (event, t) := TurnOf(db, active[i], setting, setting.answers(|log|));
    TurnOfIsTurnStep(db, active[i], setting, setting.answers(|log|));
    TurnIsSound(db0, db, t, log, event, setting.pageSize);
    ExplainedGrows(db0, log, event, setting);
    EventKeepsRound(log, event, consumers, active[i..], served, round);
    assert active[i..][1..] == active[i + 1..];
    InRoundIsInStep(log + [event], consumers, active[i + 1..], if event.Paged? then served + [active[i]] else served, round);
    FairGrows(log, event, consumers);
  }

  /** Some consumer is still in the run. */
  ghost predicate SomeoneIsLeft(log: seq<Event>, consumers: seq<ConsumerId>) {
    exists c :: c in consumers && !Ended(log, c)
  }

  lemma WaitingIsLeft(log: seq<Event>, consumers: seq<ConsumerId>, waiting: seq<ConsumerId>, served: seq<ConsumerId>, round: nat, c: ConsumerId)
    requires InRound(log, consumers, waiting, served, round) && (c in waiting || c in served)
    ensures SomeoneIsLeft(log, consumers)
  {
    assert Standing(log, c, waiting, served, round);
  }

  /** The turn of the consumer at place `i`. */
  method NextTurn(repo: Repository, active: seq<ConsumerId>, i: nat, setting: Setting, log: seq<Event>,
                  ghost served: seq<ConsumerId>, ghost db0: Db, ghost consumers: seq<ConsumerId>, ghost round: nat)
    returns (event: Event)
    requires repo.Valid() && OnCourse(db0, repo.tables, log, consumers, setting) && !LostAtEnd(log, setting) && !setting.answers(|log|).Cut?
    requires i < |active| && InRound(log, consumers, active[i..], served, round)
    modifies repo
    ensures repo.Valid() && OnCourse(db0, repo.tables, log + [event], consumers, setting) && event.consumer == active[i]
    ensures InRound(log + [event], consumers, active[i + 1..], if event.Paged? then served + [active[i]] else served, round)
    ensures |repo.tables.parked| <= |old(repo.tables).parked|
    ensures event.Paged? ==> |repo.tables.parked| < |old(repo.tables).parked|
    ensures event.Paged? ==> setting.answers(|log|).Turn? && SomeoneIsLeft(log + [event], consumers)
    ensures LostAtEnd(log + [event], setting) == (event.Paged? && !setting.answers(|log|).renewed)
  {
    TurnStaysOnCourse(db0, repo.tables, log, setting, consumers, active, i, served, round);
    TurnOfIsTurnStep(repo.tables, active[i], setting, setting.answers(|log|));
    event := TakeTurn(repo, active[i], setting, setting.answers(|log|));
    if event.Paged? { WaitingIsLeft(log + [event], consumers, active[i + 1..], served + [active[i]], round, active[i]); }
  }

  /** How a turn or a round ended: the run goes on, the answer cut it, or the lock is lost. */
  datatype Outcome = GoesOn | RunCut | LockLost

  /** The run is on course, holds the lock, and stands before the turn at place `i` of a round. */
  ghost predicate AtPlace(db0: Db, db: Db, log: seq<Event>, consumers: seq<ConsumerId>, setting: Setting,
                          active: seq<ConsumerId>, i: nat, served: seq<ConsumerId>, round: nat)
    requires i <= |active|
  {
    OnCourse(db0, db, log, consumers, setting) && !LostAtEnd(log, setting) && InRound(log, consumers, active[i..], served, round)
  }

  /** The run is on course, and stopped for the given reason with a consumer left in it. */
  ghost predicate StoppedShort(db0: Db, db: Db, log: seq<Event>, consumers: seq<ConsumerId>, setting: Setting, outcome: Outcome) {
    && OnCourse(db0, db, log, consumers, setting) && SomeoneIsLeft(log, consumers)
    && outcome.LockLost? == LostAtEnd(log, setting) && (outcome.RunCut? ==> setting.answers(|log|).Cut?)
  }

  /** Place `i` of a round: the answer may cut the run; a consumer that moved a page remains, if the lock is renewed. */
  method TakePlace(repo: Repository, active: seq<ConsumerId>, i: nat, setting: Setting, before: seq<Event>, served: seq<ConsumerId>,
                   ghost db0: Db, ghost consumers: seq<ConsumerId>, ghost round: nat)
    returns (remaining: seq<ConsumerId>, outcome: Outcome, log: seq<Event>)
    requires repo.Valid() && i < |active| && AtPlace(db0, repo.tables, before, consumers, setting, active, i, served, round)
    modifies repo
    ensures repo.Valid()
    ensures if outcome.GoesOn? then AtPlace(db0, repo.tables, log, consumers, setting, active, i + 1, remaining, round)
            else StoppedShort(db0, repo.tables, log, consumers, setting, outcome)
    ensures |repo.tables.parked| <= |old(repo.tables).parked|
    ensures remaining == served || |repo.tables.parked| < |old(repo.tables).parked|
  {
    var answer := setting.answers(|before|);
    if answer.Cut? {
      WaitingIsLeft(before, consumers, active[i..], served, round, active[i..][0]);
      return served, RunCut, before;
    }
    var event := NextTurn(repo, active, i, setting, before, served, db0, consumers, round);
    log := before + [event];
    if !event.Paged? { return served, GoesOn, log; }
    if !answer.renewed { return served, LockLost, log; }
    return served + [active[i]], GoesOn, log;
  }

  /** One round: a turn for each active consumer; those that moved a page remain. */
  method DrainRound(repo: Repository, active: seq<ConsumerId>, setting: Setting, before: seq<Event>,
                    ghost db0: Db, ghost consumers: seq<ConsumerId>, ghost round: nat)
    returns (remaining: seq<ConsumerId>, outcome: Outcome, log: seq<Event>)
    requires repo.Valid() && AtPlace(db0, repo.tables, before, consumers, setting, active, 0, [], round)
    modifies repo
    ensures repo.Valid()
    ensures if outcome.GoesOn? then AtPlace(db0, repo.tables, log, consumers, setting, active, |active|, remaining, round)
            else StoppedShort(db0, repo.tables, log, consumers, setting, outcome)
    ensures |repo.tables.parked| <= |old(repo.tables).parked| && (remaining != [] ==> |repo.tables.parked| < |old(repo.tables).parked|)
  {
    remaining, outcome, log := [], GoesOn, before;
    var i := 0;
    while i < |active|
      invariant 0 <= i <= |active| && outcome.GoesOn? && repo.Valid()
      invariant AtPlace(db0, repo.tables, log, consumers, setting, active, i, remaining, round)
      invariant |repo.tables.parked| <= |old(repo.tables).parked|
      invariant remaining != [] ==> |repo.tables.parked| < |old(repo.tables).parked|
    {
      remaining, outcome, log := TakePlace(repo, active, i, setting, log, remaining, db0, consumers, round);
      if !outcome.GoesOn? { return; }
      i := i + 1;
    }
  }

  lemma EveryoneIsOut(log: seq<Event>, consumers: seq<ConsumerId>, round: nat)
    requires InRound(log, consumers, [], [], round)
    ensures !SomeoneIsLeft(log, consumers)
  {
    assert forall c | c in consumers :: Standing(log, c, [], [], round);
  }

  /**
    Moves one page per consumer per round. Every event follows from the answer to its turn. The
    run is complete exactly when every consumer has left it, and is not complete only after a
    lost lock or when the next answer cuts it.
   */
  method DrainRoundRobin(repo: Repository, consumers: seq<ConsumerId>, setting: Setting)
    returns (lockHeld: bool, complete: bool, log: seq<Event>)
    requires repo.Valid() && Distinct(consumers)
    modifies repo
    ensures repo.Valid() && OnCourse(old(repo.tables), repo.tables, log, consumers, setting)
    ensures complete <==> !SomeoneIsLeft(log, consumers)
    ensures lockHeld <==> !LostAtEnd(log, setting)
    ensures !lockHeld ==> !complete
    ensures !complete ==> !lockHeld || setting.answers(|log|).Cut?
  {
    ghost var db0 := repo.tables;
    log := [];
    var active := consumers;
    ghost var round: nat := 0;
    RunBegins(db0, setting.pageSize);
    FirstRound(consumers);
    while |active| > 0
      invariant repo.Valid() && OnCourse(db0, repo.tables, log, consumers, setting) && !LostAtEnd(log, setting)
      invariant InRound(log, consumers, active, [], round)
      decreases |repo.tables.parked|, |active|
    {
      var remaining, outcome;
      assert active[0..] == active;
      remaining, outcome, log := DrainRound(repo, active, setting, log, db0, consumers, round);
      if !outcome.GoesOn? { return outcome.RunCut?, false, log; }
      assert active[|active|..] == [];
      NextRound(log, consumers, remaining, round);
      active, round := remaining, round + 1;
    }
    EveryoneIsOut(log, consumers, round);
    return true, true, log;
  }

  /** A consumer that finished without an error has had all its rows moved, oldest first. */
  lemma FinishedIsDrained(db0: Db, db: Db, log: seq<Event>, pageSize: int, c: ConsumerId)
    requires RunIsSound(db0, db, log, pageSize) && pageSize > 0 && !Paused(db0, c) && Ended(log, c) && !HasFailed(log, c)
    ensures ParkedOf(db, c) == map[]
    ensures RowsOf(log, c) == OldestRows(ParkedOf(db0, c), |ParkedOf(db0, c)|)
    ensures SortedFrom(map[], RowsOf(log, c)) && SeqNos(RowsOf(log, c)) == ParkedOf(db0, c).Keys
  {
    var i :| 0 <= i < |log| && log[i].consumer == c && !log[i].Paged?;
    assert log[i].Finished? && Emptied(db, c, pageSize);
    assert RowIsSound(db0, db, log, c);
    var rows, out := ParkedOf(db0, c), RowsOf(log, c);
    AllGoneIsAll(rows, out);
    OldestRowsAreSorted(rows, |rows|);
  }

  lemma AllGone(rows: map<nat, ParkedRow>, gone: set<nat>)
    requires gone <= rows.Keys && rows - gone == map[]
    ensures gone == rows.Keys
  {
    forall k | k in rows ensures k in gone {
      assert k !in rows - gone;
    }
  }

  lemma PageKeys(rows: map<nat, ParkedRow>, limit: nat)
    ensures SeqNos(OldestRows(rows, limit)) <= rows.Keys
  {
    var page := OldestRows(rows, limit);
    forall k | k in SeqNos(page) ensures k in rows {
      var i :| 0 <= i < |page| && page[i].seqNo == k;
    }
  }

  lemma AllGoneIsAll(rows: map<nat, ParkedRow>, out: seq<ParkedEntry>)
    requires out == OldestRows(rows, |out|) && rows - SeqNos(out) == map[]
    ensures out == OldestRows(rows, |rows|) && SeqNos(out) == rows.Keys
  {
    PageKeys(rows, |out|);
    AllGone(rows, SeqNos(out));
    OldestRowsSize(rows, |out|);
    Placement.SeqNosSize(out);
  }

  // ---------- on tidy tables only the outside can make a turn fail ----------

  /** No id and no pair is parked twice, or both parked and in the job table. */
  ghost predicate IsTidy(db: Db) {
    && (forall k | k in db.parked :: IsApart(db, db.parked[k]))
    && forall k, j | k in db.parked && j in db.parked && k != j :: Differ(db.parked[k], db.parked[j])
  }

  predicate Differ(a: ParkedRow, b: ParkedRow) {
    a.id != b.id && !SamePair(a.message, a.consumer, b.message, b.consumer)
  }

  ghost predicate IsApart(db: Db, row: ParkedRow) {
    && row.id !in db.jobs
    && forall id | id in db.jobs :: !SamePair(db.jobs[id].message, db.jobs[id].consumer, row.message, row.consumer)
  }

  lemma ReachableIsTidy(cfg: Config, s: Protocol.System)
    requires Protocol.Reachable(cfg, s)
    ensures IsTidy(s.db)
  {
    Placement.ReachableInv(cfg, s);
    Placement.ParkingInvariants(cfg, s);
    forall k, j | k in s.db.parked && j in s.db.parked && k != j ensures Differ(s.db.parked[k], s.db.parked[j]) {
      assert s.created[s.db.parked[k].id] != s.created[s.db.parked[j].id];
    }
  }

  lemma TidyPageFits(db: Db, page: seq<ParkedEntry>, earliest: Time, now: Time)
    requires IsTidy(db) && Placement.DistinctSeqNos(page)
    requires forall i | 0 <= i < |page| :: page[i].seqNo in db.parked && page[i].row == db.parked[page[i].seqNo]
    ensures CanInsertJobs(db.(parked := db.parked - SeqNos(page)), DrainedEntries(page, earliest, now))
  {
    var entries := DrainedEntries(page, earliest, now);
    forall i, j | 0 <= i < j < |entries|
      ensures entries[i].id != entries[j].id
      ensures !SamePair(entries[i].row.message, entries[i].row.consumer, entries[j].row.message, entries[j].row.consumer)
    {
      assert Differ(db.parked[page[i].seqNo], db.parked[page[j].seqNo]);
    }
    forall i | 0 <= i < |entries| ensures IsApart(db, page[i].row) {
      assert IsApart(db, db.parked[page[i].seqNo]);
    }
  }

  lemma TidyCommits(db: Db, c: ConsumerId, pageSize: int, earliest: Time, now: Time)
    requires IsTidy(db)
    ensures CommitDrainPage(db, ReadDrainPage(db, c, pageSize), earliest, now).Some?
  {
    var page := ReadDrainPage(db, c, pageSize);
    if pageSize > 0 { Placement.OldestRowsAreDistinct(ParkedOf(db, c), pageSize); }
    Placement.ExactDelete(db, page);
    TidyPageFits(db, page, earliest, now);
  }

  lemma CommitStaysTidy(db: Db, t: Db, c: ConsumerId, page: seq<ParkedEntry>, pageSize: int)
    requires IsTidy(db) && MovesPage(db, t, c, page, pageSize)
    ensures IsTidy(t)
  {
    CommitDeletes(db, t, page);
    var earliest, now :| CommitDrainPage(db, page, earliest, now) == Some(t);
    forall k | k in t.parked ensures IsApart(t, t.parked[k]) {
      assert IsApart(db, db.parked[k]);
      StaysApart(db, t, page, earliest, now, k);
    }
  }

  lemma StaysApart(db: Db, t: Db, page: seq<ParkedEntry>, earliest: Time, now: Time, k: nat)
    requires IsTidy(db) && k in db.parked && k !in SeqNos(page) && CommitDrainPage(db, page, earliest, now) == Some(t)
    requires forall i | 0 <= i < |page| :: page[i].seqNo in db.parked && page[i].row == db.parked[page[i].seqNo]
    ensures IsApart(t, db.parked[k])
  {
    var entries := DrainedEntries(page, earliest, now);
    forall id | id in t.jobs
      ensures id != db.parked[k].id
      ensures !SamePair(t.jobs[id].message, t.jobs[id].consumer, db.parked[k].message, db.parked[k].consumer)
    {
      assert IsApart(db, db.parked[k]);
      if id in ById(entries) {
        var i :| 0 <= i < |entries| && entries[i].id == id;
        assert t.jobs[id] == entries[i].row && page[i].seqNo in SeqNos(page);
        assert Differ(db.parked[page[i].seqNo], db.parked[k]);
      }
    }
  }

  lemma TurnStaysTidy(db: Db, c: ConsumerId, setting: Setting, answer: Answer)
    requires IsTidy(db)
    ensures var (event, t) := TurnOf(db, c, setting, answer);
            IsTidy(t) && (event.Failed? ==> !answer.Turn? || !answer.populated)
  {
    if answer.Turn? {
      var page := ReadDrainPage(db, c, setting.pageSize);
      var earliest := DrainedUntil(setting.cfg, c, answer.now);
      TidyCommits(db, c, setting.pageSize, earliest, answer.now);
      if page != [] {
        var t := CommitDrainPage(db, page, earliest, answer.now).value;
        assert Commits(db, t, page);
        CommitStaysTidy(db, t, c, page, setting.pageSize);
      }
    }
  }

  lemma {:induction false} ReplayStaysTidy(db0: Db, log: seq<Event>, setting: Setting)
    requires IsTidy(db0)
    ensures IsTidy(Replay(db0, log, setting))
    decreases |log|
  {
    if log != [] {
      var n := |log| - 1;
      ReplayStaysTidy(db0, log[..n], setting);
      TurnStaysTidy(Replay(db0, log[..n], setting), log[n].consumer, setting, setting.answers(n));
    }
  }

  /** On tidy tables a consumer is dropped with an error only if it, or the jobs it moved, could not be loaded, or the database failed. */
  lemma FailureIsAnswered(db0: Db, log: seq<Event>, setting: Setting, n: nat)
    requires IsTidy(db0) && Explained(db0, log, setting) && n < |log| && log[n].Failed?
    ensures setting.answers(n).NotLoaded? || setting.answers(n).NotDrained? || (setting.answers(n).Turn? && !setting.answers(n).populated)
  {
    ReplayStaysTidy(db0, log[..n], setting);
    TurnStaysTidy(Replay(db0, log[..n], setting), log[n].consumer, setting, setting.answers(n));
    assert IsAnswered(db0, log, setting, n);
  }

  /** Nothing outside goes wrong. */
  ghost predicate IsSmooth(setting: Setting) {
    forall n :: setting.answers(n).Turn? && setting.answers(n).populated && setting.answers(n).renewed
  }

  lemma SmoothNeverFails(db0: Db, log: seq<Event>, setting: Setting, c: ConsumerId)
    requires IsTidy(db0) && Explained(db0, log, setting) && IsSmooth(setting)
    ensures !HasFailed(log, c)
  {
    if HasFailed(log, c) {
      var n :| 0 <= n < |log| && log[n].consumer == c && log[n].Failed?;
      FailureIsAnswered(db0, log, setting, n);
    }
  }

  /** The consumer has parked rows and is not paused. */
  ghost predicate CanBeDrained(db: Db, c: ConsumerId) {
    !Paused(db, c) && exists k :: k in db.parked && db.parked[k].consumer == c
  }

  /** After a complete run a consumer that is not paused and had no error has nothing left. */
  lemma RunEmpties(db0: Db, db: Db, log: seq<Event>, consumers: seq<ConsumerId>, setting: Setting, c: ConsumerId)
    requires OnCourse(db0, db, log, consumers, setting) && !SomeoneIsLeft(log, consumers) && setting.pageSize > 0
    requires forall a :: a in consumers <==> CanBeDrained(db0, a)
    requires !Paused(db0, c) && !HasFailed(log, c)
    ensures ParkedOf(db, c) == map[]
  {
    if c in consumers {
      FinishedIsDrained(db0, db, log, setting.pageSize, c);
    } else {
      assert RowIsSound(db0, db, log, c);
      NothingToDrain(db0, db, log, c);
    }
  }

  /**
    A whole run: list the consumers that can be drained, take the lock, drain. When the run is
    complete, every consumer is empty but for those that are paused or had an error; on tidy
    tables, with the lock and with nothing going wrong outside, it is complete and no consumer
    that is not paused has a parked row left.
   */
  method RunOnce(repo: Repository, scopes: seq<Scope>, parkedConsumers: seq<ConsumerId>, locked: bool, setting: Setting)
    returns (complete: bool, log: seq<Event>)
    requires repo.Valid()
    requires forall scope :: scope in scopes <==> scope in repo.tables.pauses
    requires Distinct(parkedConsumers)
    requires forall c :: c in parkedConsumers <==> exists k :: k in repo.tables.parked && repo.tables.parked[k].consumer == c
    modifies repo
    ensures repo.Valid() && RunIsSound(old(repo.tables), repo.tables, log, setting.pageSize)
    ensures Explained(old(repo.tables), log, setting) && repo.tables == Replay(old(repo.tables), log, setting)
    ensures !locked ==> log == []
    ensures complete <==> locked && forall c | CanBeDrained(old(repo.tables), c) :: Ended(log, c)
    ensures LostAtEnd(log, setting) ==> !complete
    ensures locked && !complete ==> LostAtEnd(log, setting) || setting.answers(|log|).Cut?
    ensures complete && setting.pageSize > 0 ==> forall c :: Paused(repo.tables, c) || HasFailed(log, c) || ParkedOf(repo.tables, c) == map[]
    ensures locked && setting.pageSize > 0 && IsTidy(old(repo.tables)) && IsSmooth(setting) ==>
              complete && forall c :: Paused(repo.tables, c) || ParkedOf(repo.tables, c) == map[]
  {
    ghost var db0 := repo.tables;
    var consumers := repo.GetDrainableConsumerIds(scopes, parkedConsumers);
    assert forall c :: c in consumers <==> CanBeDrained(db0, c);
    RunBegins(db0, setting.pageSize);
    if !locked { return false, []; }
    var lockHeld;
    lockHeld, complete, log := DrainRoundRobin(repo, consumers, setting);
    forall c | complete && setting.pageSize > 0 && !Paused(db0, c) && !HasFailed(log, c) ensures ParkedOf(repo.tables, c) == map[] {
      RunEmpties(db0, repo.tables, log, consumers, setting, c);
    }
    forall c | IsTidy(db0) && IsSmooth(setting) ensures !HasFailed(log, c) {
      SmoothNeverFails(db0, log, setting, c);
    }
  }

  lemma NothingToDrain(db0: Db, db: Db, log: seq<Event>, c: ConsumerId)
    requires RowIsSound(db0, db, log, c) && !exists k :: k in db0.parked && db0.parked[k].consumer == c
    ensures ParkedOf(db, c) == map[]
  {
    assert ParkedOf(db0, c) == map[];
  }
}
