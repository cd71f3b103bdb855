/**
  The retry count of push jobs. A worker that handed a job out finishes the attempt with the
  copy it handed out, or is gone (a crash); recovery acts only on attempts whose worker is
  gone, with a copy that matches the stored count. Then the stored count is exactly the
  number of returns to QUEUED since the last dead requeue, and the hand-outs are bounded.
 */
module RetryBound {
  import opened Types
  import opened Transactions
  import opened Protocol
  import opened Placement
  import opened Worker

  /**
    `attempts` maps each job whose worker is still at work to the count of the worker's copy.
    The three counters count, per job and since its last dead requeue, the hand-outs, the
    failed attempts put back to QUEUED by their worker, and the recoveries.
   */
  datatype Ledger = Ledger(
    sys: System,
    attempts: map<JobId, nat>,
    handOuts: map<JobId, nat>,
    failures: map<JobId, nat>,
    recoveries: map<JobId, nat>)

  const Empty := Ledger(Init, map[], map[], map[], map[])

  /** What the broker does: any protocol step other than a status mark of a push job, or one action of the push path. */
  datatype Act =
    | Broker(step: Step)
    | Begin(id: JobId, copyRetries: nat, timeout: nat, now: Time)
    | Succeed(id: JobId, timeout: nat, now: Time)
    | Fail(id: JobId, timeout: nat, delta: nat, now: Time)
    | Crash(id: JobId)
    | Recover(id: JobId, copyRetries: nat, delta: nat, now: Time)

  function Count(counter: map<JobId, nat>, id: JobId): nat {
    if id in counter then counter[id] else 0
  }

  function Bump(counter: map<JobId, nat>, id: JobId): map<JobId, nat> {
    counter[id := Count(counter, id) + 1]
  }

  predicate IsPush(cfg: Config, s: System, id: JobId) {
    id in s.db.jobs && s.db.jobs[id].consumer !in cfg.pull
  }

  predicate MarksPushJob(cfg: Config, s: System, step: Step) {
    && (step.HandOut? || step.Deliver? || step.Bury? || step.BuryQueued? || step.Retry? || step.HandOutDead?)
    && IsPush(cfg, s, step.id)
  }

  /** The jobs whose count a step sets back to zero. */
  function Requeued(s: System, step: Step): set<JobId> {
    match step
    case RequeueDead(id, _) => if HasStatus(s.db, id, Dead) then {id} else {}
    case RequeueAllDead(consumer, _) => set id | id in s.db.jobs && s.db.jobs[id].consumer == consumer && s.db.jobs[id].status == Dead
    case _ => {}
  }

  function DoBroker(cfg: Config, l: Ledger, step: Step): Ledger {
    if MarksPushJob(cfg, l.sys, step) then l else
    var reset := Requeued(l.sys, step);
    l.(sys := Do(cfg, l.sys, step), handOuts := l.handOuts - reset, failures := l.failures - reset, recoveries := l.recoveries - reset)
  }

  function DoBegin(cfg: Config, l: Ledger, id: JobId, copyRetries: nat, timeout: nat, now: Time): Ledger {
    match MarkJobInflight(l.sys.db, id, copyRetries, timeout, now)
    case None => l
    case Some(db) =>
      if !IsPush(cfg, l.sys, id) then l else
      l.(sys := l.sys.(db := db), attempts := l.attempts[id := copyRetries], handOuts := Bump(l.handOuts, id))
  }

  /** A failed attempt goes DEAD when the worker's copy has used up the retries, else back to QUEUED. */
  function DoFail(cfg: Config, l: Ledger, id: JobId, timeout: nat, delta: nat, now: Time): Ledger {
    if id !in l.attempts then l else
    var gone := l.(attempts := l.attempts - {id});
    if l.attempts[id] >= cfg.maxRetry then
      gone.(sys := WithDb(l.sys, MarkJobDead(l.sys.db, id, timeout, now)))
    else
      match MarkJobRetry(l.sys.db, id, l.attempts[id], delta, now)
      case None => gone
      case Some(db) => gone.(sys := l.sys.(db := db), failures := Bump(l.failures, id))
  }

  function DoRecover(cfg: Config, l: Ledger, id: JobId, copyRetries: nat, delta: nat, now: Time): Ledger {
    if id in l.attempts || !IsPush(cfg, l.sys, id) || l.sys.db.jobs[id].retries != copyRetries then l else
    match MarkJobRetry(l.sys.db, id, copyRetries, delta, now)
    case None => l
    case Some(db) => l.(sys := l.sys.(db := db), recoveries := Bump(l.recoveries, id))
  }

  function DoAct(cfg: Config, l: Ledger, act: Act): Ledger {
    match act
    case Broker(step) => DoBroker(cfg, l, step)
    case Begin(id, copyRetries, timeout, now) => DoBegin(cfg, l, id, copyRetries, timeout, now)
    case Succeed(id, timeout, now) =>
      if id !in l.attempts then l else
      l.(attempts := l.attempts - {id}, sys := WithDb(l.sys, MarkJobDelivered(l.sys.db, id, timeout, now)))
    case Fail(id, timeout, delta, now) => DoFail(cfg, l, id, timeout, delta, now)
    case Crash(id) => l.(attempts := l.attempts - {id})
    case Recover(id, copyRetries, delta, now) => DoRecover(cfg, l, id, copyRetries, delta, now)
  }

  function Play(cfg: Config, l: Ledger, acts: seq<Act>): Ledger
    decreases |acts|
  {
    if acts == [] then l else Play(cfg, DoAct(cfg, l, acts[0]), acts[1..])
  }

  // ---------- the invariant ----------

  /** The books of one job balance: `retries` returns to QUEUED, and one more hand-out unless it waits. */
  ghost predicate Balanced(cfg: Config, l: Ledger, id: JobId, retries: nat, waiting: bool) {
    && retries == Count(l.failures, id) + Count(l.recoveries, id)
    && Count(l.handOuts, id) == retries + (if waiting then 0 else 1)
    && Count(l.failures, id) <= cfg.maxRetry
  }

  ghost predicate JobsBalance(cfg: Config, l: Ledger) {
    forall id | IsPush(cfg, l.sys, id) ::
      && Balanced(cfg, l, id, l.sys.db.jobs[id].retries, l.sys.db.jobs[id].status == Queued)
      && (l.sys.db.jobs[id].status == Dead ==> l.sys.db.jobs[id].retries >= cfg.maxRetry)
  }

  ghost predicate ParkedBalance(cfg: Config, l: Ledger) {
    forall k | k in l.sys.db.parked && l.sys.db.parked[k].consumer !in cfg.pull ::
      Balanced(cfg, l, l.sys.db.parked[k].id, l.sys.db.parked[k].retries, true)
  }

  /** The copy a worker holds matches the stored count as long as its attempt lasts. */
  ghost predicate AttemptsMatch(cfg: Config, l: Ledger) {
    forall id | id in l.attempts :: IsPush(cfg, l.sys, id) && l.sys.db.jobs[id].status == Inflight && l.sys.db.jobs[id].retries == l.attempts[id]
  }

  ghost predicate CountersAreKnown(l: Ledger) {
    l.handOuts.Keys + l.failures.Keys + l.recoveries.Keys <= l.sys.created.Keys
  }

  ghost predicate Books(cfg: Config, l: Ledger) {
    JobsBalance(cfg, l) && ParkedBalance(cfg, l) && AttemptsMatch(cfg, l) && CountersAreKnown(l)
  }

  ghost predicate Rows(s: System) {
    JobsAreLive(s) && ParkedAreLive(s)
  }

  // ---------- the push path ----------

  lemma BeginKeepsJobs(cfg: Config, l: Ledger, act: Act)
    requires JobsAreLive(l.sys) && JobsBalance(cfg, l) && CountersAreKnown(l) && act.Begin?
    ensures JobsBalance(cfg, DoAct(cfg, l, act)) && CountersAreKnown(DoAct(cfg, l, act))
  {
  }

  lemma BeginKeepsParked(cfg: Config, l: Ledger, act: Act)
    requires Rows(l.sys) && ParkedBalance(cfg, l) && act.Begin?
    ensures ParkedBalance(cfg, DoAct(cfg, l, act))
  {
  }

  lemma BeginKeepsBooks(cfg: Config, l: Ledger, act: Act)
    requires Rows(l.sys) && Books(cfg, l) && act.Begin?
    ensures Books(cfg, DoAct(cfg, l, act))
  {
    BeginKeepsJobs(cfg, l, act);
    BeginKeepsParked(cfg, l, act);
  }

  lemma SucceedKeepsBooks(cfg: Config, l: Ledger, act: Act)
    requires Rows(l.sys) && Books(cfg, l) && act.Succeed?
    ensures Books(cfg, DoAct(cfg, l, act))
  {
  }

  lemma FailKeepsBooks(cfg: Config, l: Ledger, act: Act)
    requires Rows(l.sys) && Books(cfg, l) && act.Fail?
    ensures Books(cfg, DoAct(cfg, l, act))
  {
    if act.id in l.attempts && l.attempts[act.id] >= cfg.maxRetry {
      BuryKeepsBooks(cfg, l, act);
    } else if act.id in l.attempts {
      PutBackKeepsBooks(cfg, l, act);
    }
  }

  lemma BuryKeepsBooks(cfg: Config, l: Ledger, act: Act)
    requires Rows(l.sys) && Books(cfg, l) && act.Fail? && act.id in l.attempts && l.attempts[act.id] >= cfg.maxRetry
    ensures Books(cfg, DoAct(cfg, l, act))
  {
  }

  lemma PutBackKeepsBooks(cfg: Config, l: Ledger, act: Act)
    requires Rows(l.sys) && Books(cfg, l) && act.Fail? && act.id in l.attempts && l.attempts[act.id] < cfg.maxRetry
    ensures Books(cfg, DoAct(cfg, l, act))
  {
  }

  lemma RecoverKeepsBooks(cfg: Config, l: Ledger, act: Act)
    requires Rows(l.sys) && Books(cfg, l) && act.Recover?
    ensures Books(cfg, DoAct(cfg, l, act))
  {
  }

  // ---------- the rest of the broker ----------

  /**
    Where a push job that waits or not, with this count, comes from: a row of the same kind in
    either table, or it is new or requeued and starts from zero.
   */
  ghost predicate Origin(cfg: Config, s: System, reset: set<JobId>, id: JobId, retries: nat, waiting: bool, dead: bool) {
    || (id !in reset && IsPush(cfg, s, id) && s.db.jobs[id].retries == retries
        && (s.db.jobs[id].status == Queued) == waiting && (s.db.jobs[id].status == Dead) == dead)
    || (id !in reset && waiting && !dead
        && exists k :: k in s.db.parked && s.db.parked[k].id == id && s.db.parked[k].consumer !in cfg.pull && s.db.parked[k].retries == retries)
    || ((id in reset || id !in s.created) && retries == 0 && waiting && !dead)
  }

  ghost predicate Originate(cfg: Config, s: System, t: System, reset: set<JobId>) {
    && (forall id | IsPush(cfg, t, id) ::
          Origin(cfg, s, reset, id, t.db.jobs[id].retries, t.db.jobs[id].status == Queued, t.db.jobs[id].status == Dead))
    && (forall k | k in t.db.parked && t.db.parked[k].consumer !in cfg.pull ::
          Origin(cfg, s, reset, t.db.parked[k].id, t.db.parked[k].retries, true, false))
    && (forall id | IsPush(cfg, s, id) && s.db.jobs[id].status == Inflight ::
          id in t.db.jobs && t.db.jobs[id] == s.db.jobs[id])
    && s.created.Keys <= t.created.Keys
  }

  lemma OriginIsBalanced(cfg: Config, l: Ledger, reset: set<JobId>, id: JobId, retries: nat, waiting: bool, dead: bool)
    requires Books(cfg, l) && Origin(cfg, l.sys, reset, id, retries, waiting, dead)
    ensures Balanced(cfg, l.(handOuts := l.handOuts - reset, failures := l.failures - reset, recoveries := l.recoveries - reset), id, retries, waiting)
    ensures dead ==> retries >= cfg.maxRetry
  {
  }

  lemma OriginsKeepBooks(cfg: Config, l: Ledger, t: System, reset: set<JobId>)
    requires Books(cfg, l) && Originate(cfg, l.sys, t, reset)
    ensures Books(cfg, l.(sys := t, handOuts := l.handOuts - reset, failures := l.failures - reset, recoveries := l.recoveries - reset))
  {
    forall id | IsPush(cfg, t, id)
      ensures Balanced(cfg, l.(sys := t, handOuts := l.handOuts - reset, failures := l.failures - reset, recoveries := l.recoveries - reset), id, t.db.jobs[id].retries, t.db.jobs[id].status == Queued)
      ensures t.db.jobs[id].status == Dead ==> t.db.jobs[id].retries >= cfg.maxRetry
    {
      OriginIsBalanced(cfg, l, reset, id, t.db.jobs[id].retries, t.db.jobs[id].status == Queued, t.db.jobs[id].status == Dead);
    }
    forall k | k in t.db.parked && t.db.parked[k].consumer !in cfg.pull
      ensures Balanced(cfg, l.(sys := t, handOuts := l.handOuts - reset, failures := l.failures - reset, recoveries := l.recoveries - reset), t.db.parked[k].id, t.db.parked[k].retries, true)
    {
      OriginIsBalanced(cfg, l, reset, t.db.parked[k].id, t.db.parked[k].retries, true, false);
    }
  }

  lemma PullMarkOriginates(cfg: Config, s: System, step: Step)
    requires RewritesJobs(step) && !MarksPushJob(cfg, s, step) && Rows(s) && !step.RequeueDead? && !step.RequeueAllDead?
    ensures Originate(cfg, s, Do(cfg, s, step), {})
  {
    var t := Do(cfg, s, step);
    RewriteStep(cfg, s, step);
    assert forall id | id in s.db.jobs && id != step.id :: t.db.jobs[id] == s.db.jobs[id];
    assert forall id | IsPush(cfg, s, id) :: t.db.jobs[id] == s.db.jobs[id];
  }

  /** Marks of pull jobs and requeues: a push row is as it was, or was DEAD and starts again from zero. */
  lemma RewriteOriginates(cfg: Config, s: System, step: Step)
    requires RewritesJobs(step) && !MarksPushJob(cfg, s, step) && Rows(s)
    ensures Originate(cfg, s, Do(cfg, s, step), Requeued(s, step))
  {
    if !step.RequeueDead? && !step.RequeueAllDead? {
      PullMarkOriginates(cfg, s, step);
    } else {
      RequeueOriginates(cfg, s, step);
    }
  }

  lemma RequeueOriginates(cfg: Config, s: System, step: Step)
    requires (step.RequeueDead? || step.RequeueAllDead?) && Rows(s)
    ensures Originate(cfg, s, Do(cfg, s, step), Requeued(s, step))
  {
    var t := Do(cfg, s, step);
    RewriteStep(cfg, s, step);
    var reset := Requeued(s, step);
    forall id | id in s.db.jobs ensures t.db.jobs[id] == if id in reset then RequeuedRow(s.db.jobs[id], step.now) else s.db.jobs[id] {
    }
    assert forall k | k in s.db.parked :: s.db.parked[k].id !in reset;
  }

  lemma MovedOriginates(cfg: Config, s: System, id: JobId, now: Time)
    requires Rows(s) && HasStatus(s.db, id, Queued)
    ensures Originate(cfg, s, Moved(s, id, ParkedFrom(JobEntry(id, s.db.jobs[id]), now)), {})
  {
  }

  lemma ReparkOriginates(cfg: Config, s: System, id: JobId, now: Time)
    requires Rows(s)
    ensures Originate(cfg, s, WithDb(s, ReparkQueuedJob(s.db, id, now)), {})
  {
    if ReparkQueuedJob(s.db, id, now).Some? {
      ReparkIsMove(s, id, now);
      MovedOriginates(cfg, s, id, now);
    }
  }

  lemma DrainOriginates(cfg: Config, s: System, tx: nat, earliest: Time, now: Time)
    requires Inv(s)
    ensures Originate(cfg, s, DoCommit(s, tx, earliest, now), {})
  {
    if tx in s.drains {
      var u, page := s.(drains := s.drains - {tx}), s.drains[tx];
      CommitMovesItsPage(s, tx, earliest, now);
      CommittedOriginates(cfg, u, page, earliest, now, WithDb(u, CommitDrainPage(s.db, page, earliest, now)));
      SameRowsSameOrigins(cfg, u, s, DoCommit(s, tx, earliest, now));
    } else {
      SameOriginates(cfg, s);
    }
  }

  lemma CommittedOriginates(cfg: Config, u: System, page: seq<ParkedEntry>, earliest: Time, now: Time, t: System)
    requires Inv(u) && (t == u || (PageIsParked(u, page) && t == Drained(u, page, earliest, now)))
    ensures Originate(cfg, u, t, {})
  {
    if t == u { SameOriginates(cfg, u); } else { DrainedOriginates(cfg, u, page, earliest, now); }
  }

  lemma SameOriginates(cfg: Config, s: System)
    requires Rows(s)
    ensures Originate(cfg, s, s, {})
  {
  }

  lemma SameRowsSameOrigins(cfg: Config, u: System, s: System, t: System)
    requires u.db == s.db && u.created == s.created && Originate(cfg, u, t, {})
    ensures Originate(cfg, s, t, {})
  {
    forall id | IsPush(cfg, t, id)
      ensures Origin(cfg, s, {}, id, t.db.jobs[id].retries, t.db.jobs[id].status == Queued, t.db.jobs[id].status == Dead)
    {
      assert Origin(cfg, u, {}, id, t.db.jobs[id].retries, t.db.jobs[id].status == Queued, t.db.jobs[id].status == Dead);
    }
  }

  lemma DrainedOriginates(cfg: Config, s: System, page: seq<ParkedEntry>, earliest: Time, now: Time)
    requires Inv(s) && PageIsParked(s, page)
    ensures Originate(cfg, s, Drained(s, page, earliest, now), {})
  {
    var t := Drained(s, page, earliest, now);
    forall id | IsPush(cfg, t, id)
      ensures Origin(cfg, s, {}, id, t.db.jobs[id].retries, t.db.jobs[id].status == Queued, t.db.jobs[id].status == Dead)
    {
      DrainedJob(s, page, earliest, now, id);
      if FromPage(page, id) {
        var i :| 0 <= i < |page| && page[i].row.id == id && t.db.jobs[id] == DrainedRow(page[i].row, earliest, now);
        assert s.db.parked[page[i].seqNo].id == id;
      }
    }
    forall id | id in s.db.jobs ensures id in t.db.jobs && t.db.jobs[id] == s.db.jobs[id] {
      DrainedJob(s, page, earliest, now, id);
      assert forall i | 0 <= i < |page| :: s.db.parked[page[i].seqNo].id !in s.db.jobs;
    }
  }

  lemma DispatchOriginates(cfg: Config, s: System, message: MessageId, entries: seq<JobEntry>, snapshot: set<Scope>, now: Time)
    requires Inv(s)
    ensures Originate(cfg, s, DoDispatch(s, message, entries, snapshot, now), {})
  {
    var t := DoDispatch(s, message, entries, snapshot, now);
    if t != s {
      DispatchHasEffect(s, message, entries, snapshot, now);
      DispatchCreates(s, t, message, entries);
      EffectOriginates(cfg, s, t, entries, snapshot, now);
    }
  }

  lemma EffectOriginates(cfg: Config, s: System, t: System, entries: seq<JobEntry>, snapshot: set<Scope>, now: Time)
    requires Rows(s) && CreatedEffect(s, t, entries) && DispatchEffect(s, t.db, entries, snapshot, now)
    requires forall e | e in entries :: e.row.status == Queued && e.row.retries == 0
    ensures Originate(cfg, s, t, {})
  {
  }

  lemma StepOriginates(cfg: Config, s: System, step: Step)
    requires Inv(s) && !MarksPushJob(cfg, s, step)
    ensures Originate(cfg, s, Do(cfg, s, step), Requeued(s, step))
  {
    if RewritesJobs(step) {
      RewriteOriginates(cfg, s, step);
    } else if step.Dispatch? {
      DispatchOriginates(cfg, s, step.message, step.entries, step.snapshot, step.now);
    } else if step.Repark? {
      ReparkOriginates(cfg, s, step.id, step.now);
    } else if step.CommitDrain? {
      DrainOriginates(cfg, s, step.tx, step.earliest, step.now);
    } else if step.PruneDelete? {
      PruneOriginates(cfg, s, step.messages);
    } else if step.DeleteDead? || step.DeleteAllDead? {
      DeleteOriginates(cfg, s, step);
    } else {
      OtherOriginates(cfg, s, step);
    }
  }

  lemma DeleteOriginates(cfg: Config, s: System, step: Step)
    requires Rows(s) && (step.DeleteDead? || step.DeleteAllDead?)
    ensures Originate(cfg, s, Do(cfg, s, step), {})
  {
  }

  lemma OtherOriginates(cfg: Config, s: System, step: Step)
    requires Rows(s) && (step.CreateMessage? || step.BeginDrain? || step.PauseScope? || step.ResumeScope? || step.PruneRead?)
    ensures Originate(cfg, s, Do(cfg, s, step), {})
  {
    assert Do(cfg, s, step).db.jobs == s.db.jobs && Do(cfg, s, step).db.parked == s.db.parked;
  }

  lemma PruneOriginates(cfg: Config, s: System, messages: set<MessageId>)
    requires Inv(s)
    ensures Originate(cfg, s, Do(cfg, s, PruneDelete(messages)), {})
  {
    if messages <= s.pruneReads {
      forall id | id in JobsOf(s.db, messages) ensures s.db.jobs[id].status == Delivered {
        assert CompletelyDelivered(s.db, s.db.jobs[id].message);
      }
    }
  }

  // ---------- every run ----------

  /** Each action is at most one step of the protocol. */
  function StepOf(cfg: Config, l: Ledger, act: Act): seq<Step> {
    match act
    case Broker(step) => if MarksPushJob(cfg, l.sys, step) then [] else [step]
    case Begin(id, copyRetries, timeout, now) => if IsPush(cfg, l.sys, id) then [HandOut(id, copyRetries, timeout, now)] else []
    case Succeed(id, timeout, now) => if id in l.attempts then [Deliver(id, timeout, now)] else []
    case Fail(id, timeout, delta, now) =>
      if id !in l.attempts then []
      else if l.attempts[id] >= cfg.maxRetry then [Bury(id, timeout, now)]
      else [Retry(id, l.attempts[id], delta, now)]
    case Crash(id) => []
    case Recover(id, copyRetries, delta, now) =>
      if id in l.attempts || !IsPush(cfg, l.sys, id) || l.sys.db.jobs[id].retries != copyRetries then [] else [Retry(id, copyRetries, delta, now)]
  }

  lemma ActIsStep(cfg: Config, l: Ledger, act: Act)
    ensures DoAct(cfg, l, act).sys == Exec(cfg, l.sys, StepOf(cfg, l, act))
  {
    var steps := StepOf(cfg, l, act);
    if steps != [] {
      assert Exec(cfg, l.sys, steps) == Do(cfg, l.sys, steps[0]);
    }
  }

  lemma ActKeepsInv(cfg: Config, l: Ledger, act: Act)
    requires Inv(l.sys)
    ensures Inv(DoAct(cfg, l, act).sys)
  {
    ActIsStep(cfg, l, act);
    RunKeepsInv(cfg, l.sys, StepOf(cfg, l, act));
  }

  lemma BrokerKeepsBooks(cfg: Config, l: Ledger, step: Step)
    requires Inv(l.sys) && Books(cfg, l)
    ensures Books(cfg, DoBroker(cfg, l, step))
  {
    if !MarksPushJob(cfg, l.sys, step) {
      StepOriginates(cfg, l.sys, step);
      OriginsKeepBooks(cfg, l, Do(cfg, l.sys, step), Requeued(l.sys, step));
    }
  }

  lemma PushActKeepsBooks(cfg: Config, l: Ledger, act: Act)
    requires Rows(l.sys) && Books(cfg, l) && !act.Broker?
    ensures Books(cfg, DoAct(cfg, l, act))
  {
    match act
    case Begin(_, _, _, _) => BeginKeepsBooks(cfg, l, act);
    case Succeed(_, _, _) => SucceedKeepsBooks(cfg, l, act);
    case Fail(_, _, _, _) => FailKeepsBooks(cfg, l, act);
    case Crash(_) => CrashKeepsBooks(cfg, l, act);
    case Recover(_, _, _, _) => RecoverKeepsBooks(cfg, l, act);
  }

  lemma CrashKeepsBooks(cfg: Config, l: Ledger, act: Act)
    requires Books(cfg, l) && act.Crash?
    ensures Books(cfg, DoAct(cfg, l, act))
  {
  }

  lemma ActKeepsBooks(cfg: Config, l: Ledger, act: Act)
    requires Inv(l.sys) && Books(cfg, l)
    ensures Books(cfg, DoAct(cfg, l, act))
  {
    if act.Broker? {
      BrokerKeepsBooks(cfg, l, act.step);
    } else {
      PushActKeepsBooks(cfg, l, act);
    }
  }

  lemma {:induction false} PlayKeepsBooks(cfg: Config, l: Ledger, acts: seq<Act>)
    requires Inv(l.sys) && Books(cfg, l)
    ensures Inv(Play(cfg, l, acts).sys) && Books(cfg, Play(cfg, l, acts))
    decreases |acts|
  {
    if acts != [] {
      ActKeepsInv(cfg, l, acts[0]);
      ActKeepsBooks(cfg, l, acts[0]);
      PlayKeepsBooks(cfg, DoAct(cfg, l, acts[0]), acts[1..]);
    }
  }

  /**
    In every run: the stored count of a push job is the number of its returns to QUEUED since
    its last dead requeue, its hand-outs are at most max-retry + 1 plus its recoveries, and it
    is DEAD only with its retries used up.
   */
  lemma HandOutsAreBounded(cfg: Config, acts: seq<Act>, id: JobId)
    requires IsPush(cfg, Play(cfg, Empty, acts).sys, id)
    ensures var l := Play(cfg, Empty, acts);
            var row := l.sys.db.jobs[id];
            && row.retries == Count(l.failures, id) + Count(l.recoveries, id)
            && Count(l.handOuts, id) == row.retries + (if row.status == Queued then 0 else 1)
            && Count(l.handOuts, id) <= cfg.maxRetry + 1 + Count(l.recoveries, id)
            && (row.status == Dead ==> row.retries >= cfg.maxRetry)
  {
    PlayKeepsBooks(cfg, Empty, acts);
  }

  /** While a job is parked its count is still the number of its returns to QUEUED. */
  lemma ParkedCountIsKept(cfg: Config, acts: seq<Act>, k: nat)
    requires var s := Play(cfg, Empty, acts).sys; k in s.db.parked && s.db.parked[k].consumer !in cfg.pull
    ensures var l := Play(cfg, Empty, acts);
            var row := l.sys.db.parked[k];
            && row.retries == Count(l.failures, row.id) + Count(l.recoveries, row.id) == Count(l.handOuts, row.id)
            && row.retries <= cfg.maxRetry + Count(l.recoveries, row.id)
  {
    PlayKeepsBooks(cfg, Empty, acts);
  }

  /** What an act by or for a worker is to do to the job it names. */
  ghost predicate Works(cfg: Config, l: Ledger, act: Act, t: Ledger)
    requires !act.Broker? && !act.Crash? && IsPush(cfg, l.sys, act.id)
  {
    var row := l.sys.db.jobs[act.id];
    && act.id in t.sys.db.jobs && var after := t.sys.db.jobs[act.id];
    match act
    case Begin(id, copyRetries, _, _) =>
      if row.status == Queued && row.retries == copyRetries && !Paused(l.sys.db, row.consumer)
      then after.status == Inflight && t.attempts == l.attempts[id := copyRetries] && Count(t.handOuts, id) == Count(l.handOuts, id) + 1
      else t == l
    case Succeed(id, _, _) => if id in l.attempts then after.status == Delivered && id !in t.attempts else t == l
    case Fail(id, _, delta, now) =>
      if id !in l.attempts then t == l
      else
        && id !in t.attempts
        && if row.retries >= cfg.maxRetry then after.status == Dead && t.failures == l.failures
           else after.status == Queued && after.retries == row.retries + 1 && after.earliestNextAttemptAt == now + delta
                && Count(t.failures, id) == Count(l.failures, id) + 1
    case Recover(id, copyRetries, _, _) =>
      if id !in l.attempts && row.status == Inflight && row.retries == copyRetries
      then after.status == Queued && after.retries == row.retries + 1 && Count(t.recoveries, id) == Count(l.recoveries, id) + 1
      else t == l
  }

  lemma ActWorks(cfg: Config, l: Ledger, act: Act)
    requires !act.Broker? && !act.Crash? && IsPush(cfg, l.sys, act.id) && AttemptsMatch(cfg, l)
    ensures Works(cfg, l, act, DoAct(cfg, l, act))
  {
  }

  /**
    Acts do their work in every run: a waiting push job of a consumer that is not paused begins
    its attempt with a copy of the stored count, a finished attempt leaves its job DELIVERED, a
    failed one DEAD or back in the queue one count higher, and so does a recovery of an attempt
    whose worker is gone.
   */
  lemma ActsDoTheirWork(cfg: Config, acts: seq<Act>, act: Act)
    requires !act.Broker? && !act.Crash? && IsPush(cfg, Play(cfg, Empty, acts).sys, act.id)
    ensures var l := Play(cfg, Empty, acts); Works(cfg, l, act, DoAct(cfg, l, act))
  {
    PlayKeepsBooks(cfg, Empty, acts);
    ActWorks(cfg, Play(cfg, Empty, acts), act);
  }

  /** The count of an attempt that goes back to QUEUED rises by exactly one, and no other push action changes it. */
  lemma ReturnRaisesByOne(cfg: Config, acts: seq<Act>, act: Act, id: JobId)
    requires !act.Broker? && IsPush(cfg, Play(cfg, Empty, acts).sys, id)
    ensures var l := Play(cfg, Empty, acts);
            var before, t := l.sys.db.jobs[id], DoAct(cfg, l, act).sys;
            && id in t.db.jobs
            && t.db.jobs[id].retries == before.retries + (if before.status == Inflight && t.db.jobs[id].status == Queued then 1 else 0)
  {
    PlayKeepsBooks(cfg, Empty, acts);
    ActRaisesByOne(cfg, Play(cfg, Empty, acts), act, id);
  }

  lemma ActRaisesByOne(cfg: Config, l: Ledger, act: Act, id: JobId)
    requires !act.Broker? && IsPush(cfg, l.sys, id) && AttemptsMatch(cfg, l)
    ensures var before, t := l.sys.db.jobs[id], DoAct(cfg, l, act).sys;
            && id in t.db.jobs
            && t.db.jobs[id].retries == before.retries + (if before.status == Inflight && t.db.jobs[id].status == Queued then 1 else 0)
  {
    var steps := StepOf(cfg, l, act);
    ActIsStep(cfg, l, act);
    if steps != [] {
      ExecOne(cfg, l.sys, steps[0]);
      assert steps == [steps[0]];
      MarkRaisesByOne(cfg, l.sys, steps[0], id);
    }
  }

  /** The steps of an attempt, with a copy that matches the stored count when it is a retry. */
  lemma MarkRaisesByOne(cfg: Config, s: System, step: Step, id: JobId)
    requires id in s.db.jobs && (step.HandOut? || step.Deliver? || step.Bury? || step.Retry?)
    requires step.Retry? && step.id in s.db.jobs && s.db.jobs[step.id].status == Inflight ==> step.copyRetries == s.db.jobs[step.id].retries
    ensures var before, t := s.db.jobs[id], Do(cfg, s, step);
            && id in t.db.jobs
            && t.db.jobs[id].retries == before.retries + (if before.status == Inflight && t.db.jobs[id].status == Queued then 1 else 0)
  {
  }

  ghost predicate StoredCount(s: System, id: JobId, retries: nat) {
    || (id in s.db.jobs && s.db.jobs[id].retries == retries)
    || (exists k :: k in s.db.parked && s.db.parked[k].id == id && s.db.parked[k].retries == retries)
  }

  /** Parking and draining never touch the count, for push and pull jobs alike. */
  lemma MovingKeepsCount(cfg: Config, s: System, step: Step, id: JobId, retries: nat)
    requires Reachable(cfg, s) && (step.Repark? || step.CommitDrain?) && StoredCount(s, id, retries)
    ensures StoredCount(Do(cfg, s, step), id, retries)
  {
    ReachableInv(cfg, s);
    var t := Do(cfg, s, step);
    if step.Repark? {
      ReparkKeepsCount(s, step.id, step.now, id, retries);
    } else if step.tx in s.drains {
      DrainKeepsCount(s, step, id, retries, t);
    }
  }

  lemma ReparkKeepsCount(s: System, moved: JobId, now: Time, id: JobId, retries: nat)
    requires ParkedAreLive(s) && StoredCount(s, id, retries)
    ensures StoredCount(WithDb(s, ReparkQueuedJob(s.db, moved, now)), id, retries)
  {
    if ReparkQueuedJob(s.db, moved, now).Some? {
      var t := WithDb(s, ReparkQueuedJob(s.db, moved, now));
      var row := ParkedFrom(JobEntry(moved, s.db.jobs[moved]), now);
      assert RowNumbered(s.db.nextSeq, [row], s.db.nextSeq) == row;
      assert t == Moved(s, moved, row);
      assert t.db.parked[s.db.nextSeq].id == moved;
      if !(id in s.db.jobs && s.db.jobs[id].retries == retries) {
        var k :| k in s.db.parked && s.db.parked[k].id == id && s.db.parked[k].retries == retries;
        assert k in t.db.parked;
      }
    }
  }

  lemma DrainKeepsCount(s: System, step: Step, id: JobId, retries: nat, t: System)
    requires Inv(s) && step.CommitDrain? && step.tx in s.drains && StoredCount(s, id, retries)
    requires t == WithDb(s.(drains := s.drains - {step.tx}), CommitDrainPage(s.db, s.drains[step.tx], step.earliest, step.now))
    ensures StoredCount(t, id, retries)
  {
    var u, page := s.(drains := s.drains - {step.tx}), s.drains[step.tx];
    CommitMovesItsPage(s, step.tx, step.earliest, step.now);
    if t != u {
      DrainedJob(u, page, step.earliest, step.now, id);
      if id in s.db.jobs {
        assert forall i | 0 <= i < |page| :: s.db.parked[page[i].seqNo].id != id;
      } else {
        var k :| k in s.db.parked && s.db.parked[k].id == id && s.db.parked[k].retries == retries;
        if !FromPage(page, id) {
          assert forall i | 0 <= i < |page| :: page[i].seqNo != k;
          assert k in t.db.parked;
        }
      }
    } else if id !in s.db.jobs {
      var k :| k in s.db.parked && s.db.parked[k].id == id && s.db.parked[k].retries == retries;
      assert k in t.db.parked;
    }
  }

  // ---------- without the discipline ----------

  /** Putting an attempt back raises the stored count by one if and only if the copy matches it. */
  lemma RetryRaisesIffCopyMatches(db: Db, id: JobId, copyRetries: nat, delta: nat, now: Time)
    requires HasStatus(db, id, Inflight)
    ensures MarkJobRetry(db, id, copyRetries, delta, now).Some?
    ensures MarkJobRetry(db, id, copyRetries, delta, now).value.jobs[id].retries == db.jobs[id].retries + 1 <==> copyRetries == db.jobs[id].retries
  {
  }

  /** A run of the retry and recovery passes: every step meets the guard of its pass and uses the stored copy. */
  ghost predicate PassRun(cfg: Config, s: System, steps: seq<Step>)
    requires ValidConfig(cfg)
    decreases |steps|
  {
    steps == [] || (InPass(cfg, s, steps[0]) && PassRun(cfg, Do(cfg, s, steps[0]), steps[1..]))
  }

  ghost predicate InPass(cfg: Config, s: System, step: Step)
    requires ValidConfig(cfg)
  {
    match step
    case HandOut(id, r, _, now) => DueForAttempt(cfg, s.db, id, now) && s.db.jobs[id].retries == r
    case Retry(id, r, delta, now) => StaleInflight(cfg, s.db, id, now) && s.db.jobs[id].retries == r && delta == EarliestDelta(r + 1, cfg.backoffs)
    case _ => false
  }

  function StaleAt(cfg: Config, now: Time): Time {
    now + cfg.stopTimeout + cfg.rationalDelay
  }

  /** The first time a job that the recovery pass has put back at count `r` is due again. */
  function DueAgain(cfg: Config, r: nat, now: Time): Time
    requires ValidConfig(cfg)
  {
    StaleAt(cfg, now) + EarliestDelta(r + 1, cfg.backoffs) + cfg.rationalDelay
  }

  /** An attempt that starts at `now` and is recovered, as soon as it is stale, while its worker still runs. */
  function RecoveredAttempt(cfg: Config, id: JobId, r: nat, now: Time): seq<Step>
    requires ValidConfig(cfg)
  {
    [HandOut(id, r, 0, now), Retry(id, r, EarliestDelta(r + 1, cfg.backoffs), StaleAt(cfg, now))]
  }

  ghost predicate Waits(cfg: Config, s: System, id: JobId, r: nat, now: Time) {
    DueForAttempt(cfg, s.db, id, now) && s.db.jobs[id].retries == r && !Paused(s.db, s.db.jobs[id].consumer)
  }

  lemma HandOutStarts(cfg: Config, s: System, id: JobId, r: nat, now: Time)
    requires ValidConfig(cfg) && Waits(cfg, s, id, r, now)
    ensures var t := Do(cfg, s, HandOut(id, r, 0, now));
            && t.db.pauses == s.db.pauses && StaleInflight(cfg, t.db, id, StaleAt(cfg, now))
            && t.db.jobs[id].retries == r && t.db.jobs[id].consumer == s.db.jobs[id].consumer
  {
  }

  lemma RecoveryPutsBack(cfg: Config, s: System, id: JobId, r: nat, now: Time)
    requires ValidConfig(cfg) && StaleInflight(cfg, s.db, id, now) && !Paused(s.db, s.db.jobs[id].consumer)
    ensures var delta := EarliestDelta(r + 1, cfg.backoffs);
            Waits(cfg, Do(cfg, s, Retry(id, r, delta, now)), id, r + 1, now + delta + cfg.rationalDelay)
  {
  }

  lemma RecoveredAttemptWaits(cfg: Config, s: System, id: JobId, r: nat, now: Time)
    requires ValidConfig(cfg) && Waits(cfg, s, id, r, now)
    ensures PassRun(cfg, s, RecoveredAttempt(cfg, id, r, now))
    ensures Waits(cfg, Exec(cfg, s, RecoveredAttempt(cfg, id, r, now)), id, r + 1, DueAgain(cfg, r, now))
  {
    var steps := RecoveredAttempt(cfg, id, r, now);
    HandOutStarts(cfg, s, id, r, now);
    var s1 := Do(cfg, s, steps[0]);
    RecoveryPutsBack(cfg, s1, id, r, StaleAt(cfg, now));
    ExecTwo(cfg, s, steps[0], steps[1]);
    assert steps[1..] == [steps[1]] && [steps[1]][1..] == [];
    assert PassRun(cfg, s1, steps[1..]);
  }

  lemma {:induction false} PassRunConcat(cfg: Config, s: System, a: seq<Step>, b: seq<Step>)
    requires ValidConfig(cfg) && PassRun(cfg, s, a) && PassRun(cfg, Exec(cfg, s, a), b)
    ensures PassRun(cfg, s, a + b)
    decreases |a|
  {
    if a == [] {
      assert a + b == b;
    } else {
      assert (a + b)[1..] == a[1..] + b;
      PassRunConcat(cfg, Do(cfg, s, a[0]), a[1..], b);
    }
  }

  /** Two attempts recovered behind their workers' backs and a third hand-out, each at the first time its pass allows. */
  function ThreeAttempts(cfg: Config, id: JobId, r: nat, now: Time): seq<Step>
    requires ValidConfig(cfg)
  {
    var second := DueAgain(cfg, r, now);
    RecoveredAttempt(cfg, id, r, now) + RecoveredAttempt(cfg, id, r + 1, second) + [HandOut(id, r + 2, 0, DueAgain(cfg, r + 1, second))]
  }

  /** The steps, all hand-outs and retries, come in the order of their times, up to `end`. */
  ghost predicate TimesGrow(steps: seq<Step>, end: Time) {
    && (forall i | 0 <= i < |steps| :: (steps[i].HandOut? || steps[i].Retry?) && steps[i].now <= end)
    && forall i, j | 0 <= i < j < |steps| :: steps[i].now <= steps[j].now
  }

  lemma AttemptTimesGrow(cfg: Config, id: JobId, r: nat, now: Time)
    requires ValidConfig(cfg)
    ensures TimesGrow(ThreeAttempts(cfg, id, r, now), DueAgain(cfg, r + 1, DueAgain(cfg, r, now)))
  {
    var second := DueAgain(cfg, r, now);
    assert now <= StaleAt(cfg, now) <= second <= StaleAt(cfg, second) <= DueAgain(cfg, r + 1, second);
  }

  /**
    Without the discipline the count can fall. From every state where a job of a consumer that
    is not paused is due at count r, the retry and recovery passes alone, each step meeting its
    guard and none before the one it follows, can bring it to a third attempt at count r + 2;
    then the failure of the first worker, at any later time, writes r + 1 over r + 2.
   */
  lemma LateFailureLowersTheCount(cfg: Config, s: System, id: JobId, r: nat, now: Time, late: Time)
    requires ValidConfig(cfg) && Waits(cfg, s, id, r, now) && r < cfg.maxRetry
    requires late >= DueAgain(cfg, r + 1, DueAgain(cfg, r, now))
    ensures PassRun(cfg, s, ThreeAttempts(cfg, id, r, now)) && TimesGrow(ThreeAttempts(cfg, id, r, now), late)
    ensures var t := Exec(cfg, s, ThreeAttempts(cfg, id, r, now));
            && HasStatus(t.db, id, Inflight) && t.db.jobs[id].retries == r + 2
            && Do(cfg, t, Retry(id, r, EarliestDelta(r + 1, cfg.backoffs), late)).db.jobs[id].retries == r + 1
  {
    var at := DueAgain(cfg, r, now);
    var first, second := RecoveredAttempt(cfg, id, r, now), RecoveredAttempt(cfg, id, r + 1, at);
    var last := HandOut(id, r + 2, 0, DueAgain(cfg, r + 1, at));
    RecoveredAttemptWaits(cfg, s, id, r, now);
    var s1 := Exec(cfg, s, first);
    RecoveredAttemptWaits(cfg, s1, id, r + 1, at);
    var s2 := Exec(cfg, s1, second);
    ExecConcat(cfg, s, first, second);
    ExecConcat(cfg, s, first + second, [last]);
    ExecOne(cfg, s2, last);
    PassRunConcat(cfg, s, first, second);
    assert PassRun(cfg, s2, [last]) by { assert [last][1..] == []; }
    PassRunConcat(cfg, s, first + second, [last]);
    HandOutStarts(cfg, s2, id, r + 2, DueAgain(cfg, r + 1, at));
    AttemptTimesGrow(cfg, id, r, now);
  }
}
