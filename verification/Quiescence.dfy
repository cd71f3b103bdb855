/**
  While a pause row covers a consumer no delivery of it starts, whatever any node's pause
  snapshot says: its INFLIGHT jobs can only become fewer.
 */
module Quiescence {
  import opened Collections
  import opened Types
  import opened Transactions
  import opened Protocol
  import JobLife

  function InflightOf(db: Db, consumer: ConsumerId): set<JobId> {
    set id | id in db.jobs && db.jobs[id].consumer == consumer && db.jobs[id].status == Inflight
  }

  /** An insert of rows that are not INFLIGHT and do not replace a row starts nothing. */
  lemma InsertStartsNothing(db: Db, entries: seq<JobEntry>, consumer: ConsumerId)
    requires InsertJobs(db, entries).Some? && forall i | 0 <= i < |entries| :: entries[i].row.status != Inflight
    ensures InflightOf(InsertJobs(db, entries).value, consumer) <= InflightOf(db, consumer)
  {
    assert forall id | id in ById(entries) :: ById(entries)[id].status != Inflight;
  }

  lemma DispatchStartsNothing(s: System, message: MessageId, entries: seq<JobEntry>, snapshot: set<Scope>, now: Time, consumer: ConsumerId)
    ensures InflightOf(DoDispatch(s, message, entries, snapshot, now).db, consumer) <= InflightOf(s.db, consumer)
  {
    if DoDispatch(s, message, entries, snapshot, now) != s {
      var active := Split(snapshot, entries, false);
      forall i | 0 <= i < |active| ensures FreshRows(active)[i].row.status == Queued { assert active[i] in active; }
      InsertStartsNothing(s.db, FreshRows(active), consumer);
    }
  }

  lemma DrainStartsNothing(db: Db, page: seq<ParkedEntry>, earliest: Time, now: Time, consumer: ConsumerId)
    requires CommitDrainPage(db, page, earliest, now).Some?
    ensures InflightOf(CommitDrainPage(db, page, earliest, now).value, consumer) <= InflightOf(db, consumer)
  {
    InsertStartsNothing(db.(parked := db.parked - SeqNos(page)), DrainedEntries(page, earliest, now), consumer);
  }

  lemma StepStartsNothing(cfg: Config, s: System, step: Step, consumer: ConsumerId)
    requires Paused(s.db, consumer)
    ensures InflightOf(Do(cfg, s, step).db, consumer) <= InflightOf(s.db, consumer)
  {
    match step
    case Dispatch(message, entries, snapshot, now) => DispatchStartsNothing(s, message, entries, snapshot, now, consumer);
    case CommitDrain(tx, earliest, now) =>
      if tx in s.drains && CommitDrainPage(s.db, s.drains[tx], earliest, now).Some? {
        DrainStartsNothing(s.db, s.drains[tx], earliest, now, consumer);
      }
    case Repark(id, now) =>
    case HandOut(_, _, _, _) =>
    case _ => OtherStartsNothing(cfg, s, step, consumer);
  }

  lemma OtherStartsNothing(cfg: Config, s: System, step: Step, consumer: ConsumerId)
    requires Paused(s.db, consumer) && !step.Dispatch? && !step.CommitDrain? && !step.Repark? && !step.HandOut?
    ensures InflightOf(Do(cfg, s, step).db, consumer) <= InflightOf(s.db, consumer)
  {
  }

  lemma PauseRowStays(cfg: Config, s: System, step: Step, scope: Scope)
    requires scope in s.db.pauses && step != ResumeScope(scope)
    ensures scope in Do(cfg, s, step).db.pauses
  {
    JobLife.PausesMove(cfg, s, step, scope);
  }

  /**
    From a state where a pause row covers the consumer, over any run that does not resume that
    scope: no job of the consumer becomes INFLIGHT, so the count never rises, and once it is
    zero it stays zero.
   */
  lemma {:induction false} PausedConsumerGoesQuiet(cfg: Config, s: System, steps: seq<Step>, scope: Scope, consumer: ConsumerId)
    requires scope in s.db.pauses && (scope == Global || scope == Consumer(consumer))
    requires ResumeScope(scope) !in steps
    ensures InflightOf(Exec(cfg, s, steps).db, consumer) <= InflightOf(s.db, consumer)
    ensures |InflightOf(Exec(cfg, s, steps).db, consumer)| <= |InflightOf(s.db, consumer)|
    decreases |steps|
  {
    if steps != [] {
      StepStartsNothing(cfg, s, steps[0], consumer);
      PauseRowStays(cfg, s, steps[0], scope);
      PausedConsumerGoesQuiet(cfg, Do(cfg, s, steps[0]), steps[1..], scope, consumer);
    }
    SubsetSize(InflightOf(Exec(cfg, s, steps).db, consumer), InflightOf(s.db, consumer));
  }

  /**
    A pause request quiets the consumers it covers: from any state, over any run that follows it
    and does not resume its scope, no job of such a consumer becomes INFLIGHT.
   */
  lemma PauseRequestQuiets(cfg: Config, s: System, scope: Scope, steps: seq<Step>, consumer: ConsumerId)
    requires JobLife.Covers(scope, consumer) && ResumeScope(scope) !in steps
    ensures InflightOf(Exec(cfg, s, [PauseScope(scope)] + steps).db, consumer) <= InflightOf(s.db, consumer)
    ensures Paused(Exec(cfg, s, [PauseScope(scope)] + steps).db, consumer)
  {
    var t := Do(cfg, s, PauseScope(scope));
    JobLife.PausesMove(cfg, s, PauseScope(scope), scope);
    ExecConcat(cfg, s, [PauseScope(scope)], steps);
    ExecOne(cfg, s, PauseScope(scope));
    PausedConsumerGoesQuiet(cfg, t, steps, scope, consumer);
    PauseLasts(cfg, t, steps, scope);
    assert InflightOf(t.db, consumer) == InflightOf(s.db, consumer);
  }

  lemma {:induction false} PauseLasts(cfg: Config, s: System, steps: seq<Step>, scope: Scope)
    requires scope in s.db.pauses && ResumeScope(scope) !in steps
    ensures scope in Exec(cfg, s, steps).db.pauses
    decreases |steps|
  {
    if steps != [] {
      PauseRowStays(cfg, s, steps[0], scope);
      PauseLasts(cfg, Do(cfg, s, steps[0]), steps[1..], scope);
    }
  }
}
