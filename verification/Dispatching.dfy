/**
  The dispatcher's own loops over the registry, the repository and the scheduler: splitting the
  jobs of a message by pause, dispatching it, queueing or parking one job, and the retry pass.
 */
module Dispatching {
  import opened Types
  import T = Transactions
  import P = Protocol
  import L = Lanes
  import F = Fairness
  import LaneScheduler
  import J = JobLife
  import Placement
  import opened Repositories
  import PauseRegistry

  lemma SplitGrows(scopes: set<Scope>, entries: seq<JobEntry>, last: JobEntry, paused: bool)
    ensures P.Split(scopes, entries + [last], paused) ==
            P.Split(scopes, entries, paused) + if P.Covered(scopes, last.row.consumer) == paused then [last] else []
    decreases |entries|
  {
    if entries != [] {
      assert (entries + [last])[1..] == entries[1..] + [last];
      SplitGrows(scopes, entries[1..], last, paused);
    }
  }

  lemma EntriesGrow(jobs: seq<DeliveryJob>, job: DeliveryJob)
    ensures Entries(jobs + [job]) == Entries(jobs) + [job.Entry()]
  {
    assert (jobs + [job])[..|jobs|] == jobs;
  }

  /** The jobs whose consumer is (`paused`) or is not (`!paused`) covered by the scopes, in order. */
  function Pick(jobs: seq<DeliveryJob>, scopes: set<Scope>, paused: bool): (r: seq<DeliveryJob>)
    ensures forall i | 0 <= i < |r| :: r[i] in jobs
  {
    if jobs == [] then [] else
    var n := |jobs| - 1;
    Pick(jobs[..n], scopes, paused) + if P.Covered(scopes, jobs[n].consumer) == paused then [jobs[n]] else []
  }

  lemma {:induction false} PickIsSplit(jobs: seq<DeliveryJob>, scopes: set<Scope>, paused: bool)
    ensures Entries(Pick(jobs, scopes, paused)) == P.Split(scopes, Entries(jobs), paused)
  {
    if jobs != [] {
      var init, last := jobs[..|jobs| - 1], jobs[|jobs| - 1];
      PickIsSplit(init, scopes, paused);
      SplitGrows(scopes, Entries(init), last.Entry(), paused);
      EntriesGrow(Pick(init, scopes, paused), last);
      assert Pick(init, scopes, paused) + [] == Pick(init, scopes, paused);
    }
  }

  lemma PickNext(jobs: seq<DeliveryJob>, scopes: set<Scope>, i: nat, paused: bool)
    requires i < |jobs|
    ensures Pick(jobs[..i + 1], scopes, paused) == Pick(jobs[..i], scopes, paused) + if P.Covered(scopes, jobs[i].consumer) == paused then [jobs[i]] else []
  {
    assert jobs[..i + 1][..i] == jobs[..i];
  }

  /** The jobs of consumers that the node's snapshot shows as paused, and the others, both in order. */
  method SplitPausedJobs(registry: PauseRegistry.Registry, jobs: seq<DeliveryJob>) returns (active: seq<DeliveryJob>, parked: seq<DeliveryJob>)
    requires registry.Valid()
    ensures Entries(active) == P.Split(registry.known.Keys, Entries(jobs), false)
    ensures Entries(parked) == P.Split(registry.known.Keys, Entries(jobs), true)
    ensures active == Pick(jobs, registry.known.Keys, false) && parked == Pick(jobs, registry.known.Keys, true)
  {
    active, parked := [], [];
    ghost var scopes := registry.known.Keys;
    for i := 0 to |jobs|
      invariant active == Pick(jobs[..i], scopes, false) && parked == Pick(jobs[..i], scopes, true)
    {
      PickNext(jobs, scopes, i, false);
      PickNext(jobs, scopes, i, true);
      var paused := registry.IsEffectivelyPaused(jobs[i].consumer);
      if paused {
        parked := parked + [jobs[i]];
      } else {
        active := active + [jobs[i]];
      }
    }
    assert jobs[..|jobs|] == jobs;
    PickIsSplit(jobs, scopes, false);
    PickIsSplit(jobs, scopes, true);
  }

  /** The transaction of a dispatch with this node's view of the pauses. */
  function DispatchWith(db: Db, message: MessageId, entries: seq<JobEntry>, scopes: set<Scope>, now: Time): Option<Db> {
    T.DispatchMessageWithParking(db, message, P.Split(scopes, entries, false), P.Split(scopes, entries, true), now)
  }

  /** For new jobs this is the dispatch step of the protocol. */
  lemma DispatchIsStep(s: P.System, message: MessageId, entries: seq<JobEntry>, scopes: set<Scope>, now: Time)
    requires P.FreshJobs(s, message, entries)
    ensures var next := DispatchWith(s.db, message, entries, scopes, now);
            P.DoDispatch(s, message, entries, scopes, now).db == if next.Some? then next.value else s.db
  {
  }

  /** In a reachable state it commits if and only if the message waits for its dispatch, whatever the snapshot. */
  lemma DispatchWithCommitsIff(cfg: Config, s: P.System, message: MessageId, entries: seq<JobEntry>, scopes: set<Scope>, now: Time)
    requires P.Reachable(cfg, s) && P.FreshJobs(s, message, entries)
    ensures DispatchWith(s.db, message, entries, scopes, now).Some? <==> message in s.db.messages && s.db.messages[message].status == Acknowledged
  {
    Placement.ReachableInv(cfg, s);
    J.DispatchCommitsIff(s, message, entries, scopes, now);
  }

  /**
    Parks the job if the snapshot shows its consumer as paused and the database agrees; queues it
    otherwise. A job that is not queued has been moved, whatever the snapshot says.
   */
  method ParkOrQueue(registry: PauseRegistry.Registry, repo: Repository, job: DeliveryJob, now: Time) returns (queued: bool)
    requires registry.Valid() && repo.Valid()
    modifies repo, job
    ensures repo.Valid()
    ensures queued ==> repo.tables == old(repo.tables) && job.Row() == old(job.Row())
    ensures !queued ==> T.ReparkQueuedJob(old(repo.tables), job.id, now) == Some(repo.tables) && job.Row() == old(job.Row()).(status := Parked)
    ensures !queued <==> P.Covered(registry.known.Keys, job.consumer) && T.ReparkQueuedJob(old(repo.tables), job.id, now).Some?
  {
    var paused := registry.IsEffectivelyPaused(job.consumer);
    if paused {
      var moved, ok := repo.ReparkQueuedJob(job, now);
      if moved { return false; }
    }
    return true;
  }

  /** The jobs of push consumers, in order. */
  function PushJobs(jobs: seq<DeliveryJob>, pull: set<ConsumerId>): seq<DeliveryJob> {
    if jobs == [] then [] else
    var n := |jobs| - 1;
    PushJobs(jobs[..n], pull) + if jobs[n].consumer !in pull then [jobs[n]] else []
  }

  /** Queueing jobs that the snapshot does not show as paused queues every push job and changes nothing else. */
  method QueueJobs(registry: PauseRegistry.Registry, repo: Repository, jobs: seq<DeliveryJob>, pull: set<ConsumerId>, now: Time)
    returns (queued: seq<DeliveryJob>)
    requires registry.Valid() && repo.Valid() && forall i | 0 <= i < |jobs| :: !P.Covered(registry.known.Keys, jobs[i].consumer)
    modifies repo, jobs
    ensures repo.Valid() && repo.tables == old(repo.tables) && queued == PushJobs(jobs, pull)
  {
    queued := [];
    ghost var tables := repo.tables;
    for i := 0 to |jobs|
      invariant repo.Valid() && repo.tables == tables && registry.Valid() && registry.known == old(registry.known)
      invariant queued == PushJobs(jobs[..i], pull)
    {
      assert jobs[..i + 1][..i] == jobs[..i];
      if jobs[i].consumer !in pull {
        var kept := ParkOrQueue(registry, repo, jobs[i], now);
        if kept { queued := queued + [jobs[i]]; }
      }
    }
    assert jobs[..|jobs|] == jobs;
  }

  lemma {:induction false} PickedAreAlike(jobs: seq<DeliveryJob>, scopes: set<Scope>, paused: bool)
    ensures forall i | 0 <= i < |Pick(jobs, scopes, paused)| :: P.Covered(scopes, Pick(jobs, scopes, paused)[i].consumer) == paused
  {
    if jobs != [] { PickedAreAlike(jobs[..|jobs| - 1], scopes, paused); }
  }

  /** A push job whose consumer no scope covers. */
  ghost predicate IsToQueue(scopes: set<Scope>, pull: set<ConsumerId>, job: DeliveryJob) {
    job.consumer !in pull && forall scope | scope in scopes :: !J.Covers(scope, job.consumer)
  }

  /** `at` lists, in order, the places of the jobs to queue, and `queued` the jobs there. */
  ghost predicate QueuesAt(scopes: set<Scope>, pull: set<ConsumerId>, jobs: seq<DeliveryJob>, queued: seq<DeliveryJob>, at: seq<nat>) {
    && |at| == |queued| && (forall n | 0 <= n < |at| :: at[n] < |jobs| && queued[n] == jobs[at[n]])
    && (forall n, m | 0 <= n < m < |at| :: at[n] < at[m])
    && forall i | 0 <= i < |jobs| :: i in at <==> IsToQueue(scopes, pull, jobs[i])
  }

  lemma PickedGrows(jobs: seq<DeliveryJob>, scopes: set<Scope>, pull: set<ConsumerId>)
    requires jobs != []
    ensures var init, last := jobs[..|jobs| - 1], jobs[|jobs| - 1];
            PushJobs(Pick(jobs, scopes, false), pull)
            == PushJobs(Pick(init, scopes, false), pull) + if IsToQueue(scopes, pull, last) then [last] else []
  {
    var init, last := jobs[..|jobs| - 1], jobs[|jobs| - 1];
    var picked := Pick(init, scopes, false);
    J.CoveredIff(scopes, last.consumer);
    assert (picked + [last])[..|picked|] == picked;
    assert picked + [] == picked;
    assert PushJobs(picked, pull) + [] == PushJobs(picked, pull);
  }

  lemma {:induction false} PickedPushJobs(jobs: seq<DeliveryJob>, scopes: set<Scope>, pull: set<ConsumerId>) returns (at: seq<nat>)
    ensures QueuesAt(scopes, pull, jobs, PushJobs(Pick(jobs, scopes, false), pull), at)
    decreases |jobs|
  {
    at := [];
    if jobs != [] {
      var n := |jobs| - 1;
      var init, last := jobs[..n], jobs[n];
      at := PickedPushJobs(init, scopes, pull);
      PickedGrows(jobs, scopes, pull);
      assert forall i | 0 <= i < n :: init[i] == jobs[i];
      if IsToQueue(scopes, pull, last) { at := at + [n]; }
    }
  }

  /** The split and the transaction: both tables together or nothing, and the jobs left unparked come back. */
  method CommitDispatch(registry: PauseRegistry.Registry, repo: Repository, message: MessageId, jobs: seq<DeliveryJob>, now: Time)
    returns (ok: bool, active: seq<DeliveryJob>)
    requires registry.Valid() && repo.Valid()
    modifies repo, jobs
    ensures repo.Valid() && active == Pick(jobs, registry.known.Keys, false)
    ensures var next := old(DispatchWith(repo.tables, message, Entries(jobs), registry.known.Keys, now));
            ok == next.Some? && repo.tables == if ok then next.value else old(repo.tables)
  {
    var parked;
    active, parked := SplitPausedJobs(registry, jobs);
    ok := repo.DispatchMessageWithParking(message, active, parked, now);
  }

  /**
    Dispatches a message with new jobs for its consumers: the split, the transaction, and the
    queueing. When it commits, exactly the push jobs that were not parked are queued, in order.
   */
  method Dispatch(registry: PauseRegistry.Registry, repo: Repository, message: MessageId, jobs: seq<DeliveryJob>, pull: set<ConsumerId>, now: Time)
    returns (ok: bool, queued: seq<DeliveryJob>)
    requires registry.Valid() && repo.Valid()
    modifies repo, jobs
    ensures repo.Valid()
    ensures var next := old(DispatchWith(repo.tables, message, Entries(jobs), registry.known.Keys, now));
            ok == next.Some? && repo.tables == if ok then next.value else old(repo.tables)
    ensures if ok then exists at :: QueuesAt(registry.known.Keys, pull, jobs, queued, at) else queued == []
  {
    var active;
    ok, active := CommitDispatch(registry, repo, message, jobs, now);
    PickedAreAlike(jobs, registry.known.Keys, false);
    queued := [];
    if ok {
      queued := QueueJobs(registry, repo, active, pull, now);
      ghost var at := PickedPushJobs(jobs, registry.known.Keys, pull);
    }
  }

  lemma {:induction false} PassGrows(s: L.Sched, limits: L.Limits, jobs: seq<L.JobData>, last: L.JobData)
    ensures F.Pass(s, limits, jobs + [last]) == L.Enqueue(F.Pass(s, limits, jobs), limits, last)
    decreases |jobs|
  {
    if jobs == [] {
      assert jobs + [last] == [last];
    } else {
      assert (jobs + [last])[1..] == jobs[1..] + [last];
      PassGrows(L.Enqueue(s, limits, jobs[0]), limits, jobs[1..], last);
    }
  }

  /** Every copy of a job names the same lane. */
  ghost predicate SameLanes(tracked: map<JobId, L.Held>, jobs: seq<L.JobData>) {
    && (forall data | data in jobs && data.id in tracked :: tracked[data.id].data.lane == data.lane)
    && forall a, b | a in jobs && b in jobs && a.id == b.id :: a.lane == b.lane
  }

  lemma EnqueueKeepsLanes(s: L.Sched, limits: L.Limits, jobs: seq<L.JobData>, data: L.JobData)
    requires SameLanes(s.tracked, jobs) && data in jobs
    ensures SameLanes(L.Enqueue(s, limits, data).tracked, jobs)
  {
  }

  /** What the retry pass reads of a job object; none of its updates changes it. */
  datatype Copy = Copy(id: JobId, consumer: ConsumerId, priority: nat, retries: nat, timeout: nat)

  function CopyOf(job: DeliveryJob): Copy
    reads job
  {
    Copy(job.id, job.consumer, job.priority, job.retries, job.incrementalTimeout)
  }

  /** The surroundings of a pass: configuration, limits, pause snapshot, the lane of each consumer, and the clock. */
  datatype Setup = Setup(cfg: Config, limits: L.Limits, scopes: set<Scope>, lane: ConsumerId -> L.LaneKey, now: Time)

  function DataOf(setup: Setup, c: Copy): L.JobData {
    L.JobData(c.id, setup.lane(c.consumer), c.priority, c.retries)
  }

  /** What a pass works on. */
  datatype Work = Work(tables: Db, sched: L.Sched)

  function Either(result: Option<Db>, otherwise: Db): Db {
    if result.Some? then result.value else otherwise
  }

  /**
    One job of the retry pass. A pull job with no retries left goes DEAD; a push job that the
    scheduler does not hold is parked or queued; both only under the lock of the job.
   */
  function RetryStep(w: Work, setup: Setup, c: Copy, locked: bool): Work {
    if c.consumer in setup.cfg.pull then
      if c.retries >= setup.cfg.maxRetry && locked then
        w.(tables := Either(T.MarkQueuedJobAsDead(w.tables, c.id, c.timeout, setup.now), w.tables))
      else
        w
    else if L.IsHeld(w.sched, DataOf(setup, c)) || !locked then w
    else if P.Covered(setup.scopes, c.consumer) && T.ReparkQueuedJob(w.tables, c.id, setup.now).Some? then
      w.(tables := T.ReparkQueuedJob(w.tables, c.id, setup.now).value)
    else
      w.(sched := L.Enqueue(w.sched, setup.limits, DataOf(setup, c)))
  }

  function RetryRun(w: Work, setup: Setup, copies: seq<Copy>, locked: nat -> bool): Work {
    if copies == [] then w else
    var n := |copies| - 1;
    RetryStep(RetryRun(w, setup, copies[..n], locked), setup, copies[n], locked(n))
  }

  function AllData(setup: Setup, copies: seq<Copy>): (all: seq<L.JobData>)
    ensures |all| == |copies| && forall i | 0 <= i < |copies| :: all[i] == DataOf(setup, copies[i])
  {
    seq(|copies|, i requires 0 <= i < |copies| => DataOf(setup, copies[i]))
  }

  /** A push job whose lock is free ends up with the scheduler or in the parking table. */
  lemma RetriedIsHeldOrParked(w: Work, setup: Setup, c: Copy)
    requires c.consumer !in setup.cfg.pull
    ensures var t := RetryStep(w, setup, c, true);
            || (L.IsHeld(t.sched, DataOf(setup, c)) && t.tables == w.tables)
            || (t.sched == w.sched && c.id !in t.tables.jobs && exists k :: k in t.tables.parked && t.tables.parked[k].id == c.id)
  {
    var t := RetryStep(w, setup, c, true);
    F.EnqueuedIsHeld(w.sched, setup.limits, DataOf(setup, c));
    if t.tables != w.tables {
      var k := w.tables.nextSeq;
      assert t.tables.parked[k].id == c.id;
    }
  }

  /** A job whose lock is taken, or a push job the scheduler holds with a copy as fresh, is left alone. */
  lemma SkippedIsLeftAlone(w: Work, setup: Setup, c: Copy, locked: bool)
    requires !locked || (c.consumer !in setup.cfg.pull && c.id in w.sched.tracked
                         && (w.sched.tracked[c.id].running || c.retries <= w.sched.tracked[c.id].data.retries))
    ensures RetryStep(w, setup, c, locked) == w
  {
    F.HeldIff(w.sched, DataOf(setup, c));
  }

  /** A push job that is not skipped leaves the job table exactly when the snapshot and the database both show its pause. */
  lemma RetriedIsParkedIff(cfg: Config, s: P.System, w: Work, setup: Setup, c: Copy)
    requires P.Reachable(cfg, s) && s.db == w.tables && c.consumer !in setup.cfg.pull && !L.IsHeld(w.sched, DataOf(setup, c))
    ensures var t := RetryStep(w, setup, c, true);
            if J.IsCoveredBy(setup.scopes, c.consumer) && T.HasStatus(w.tables, c.id, Queued) && J.IsCoveredBy(w.tables.pauses, w.tables.jobs[c.id].consumer) then
              c.id !in t.tables.jobs && t.sched == w.sched
            else
              t.tables == w.tables && t.sched == L.Enqueue(w.sched, setup.limits, DataOf(setup, c))
  {
    Placement.ReparkMovesIffQueuedAndPaused(cfg, s, c.id, setup.now);
    J.CoveredIff(setup.scopes, c.consumer);
    if T.HasStatus(w.tables, c.id, Queued) { J.CoveredIff(w.tables.pauses, w.tables.jobs[c.id].consumer); }
  }

  /** A waiting pull job that has no retries left and whose lock is free goes DEAD; every other pull job is left alone. */
  lemma RetriedPullJob(w: Work, setup: Setup, c: Copy, locked: bool)
    requires c.consumer in setup.cfg.pull
    ensures var t := RetryStep(w, setup, c, locked);
            && t.sched == w.sched
            && if locked && c.retries >= setup.cfg.maxRetry && c.id in w.tables.jobs && w.tables.jobs[c.id].status == Queued then
                 && t.tables == w.tables.(jobs := t.tables.jobs) && t.tables.jobs.Keys == w.tables.jobs.Keys
                 && (forall id | id in w.tables.jobs && id != c.id :: t.tables.jobs[id] == w.tables.jobs[id])
                 && t.tables.jobs[c.id].status == Dead && t.tables.jobs[c.id].retries == w.tables.jobs[c.id].retries
               else
                 t.tables == w.tables
  {
  }

  /** In the tables, one job of the pass is nothing or one step of the protocol. */
  lemma RetryStepIsStep(s: P.System, w: Work, setup: Setup, c: Copy, locked: bool)
    requires s.db == w.tables
    ensures var tables := RetryStep(w, setup, c, locked).tables;
            || tables == s.db
            || (c.consumer in setup.cfg.pull && tables == P.Do(setup.cfg, s, P.BuryQueued(c.id, c.timeout, setup.now)).db)
            || (c.consumer !in setup.cfg.pull && tables == P.Do(setup.cfg, s, P.Repark(c.id, setup.now)).db)
  {
  }

  /** With no pause in the snapshot and every lock free, skipping held jobs leaves the scheduler as queueing every push job would. */
  lemma {:induction false} RetryRunQueues(w: Work, setup: Setup, copies: seq<Copy>, locked: nat -> bool)
    requires forall i | 0 <= i < |copies| :: copies[i].consumer !in setup.cfg.pull && !P.Covered(setup.scopes, copies[i].consumer) && locked(i)
    ensures RetryRun(w, setup, copies, locked) == Work(w.tables, F.Pass(w.sched, setup.limits, AllData(setup, copies)))
    decreases |copies|
  {
    if copies != [] {
      var n := |copies| - 1;
      var s := F.Pass(w.sched, setup.limits, AllData(setup, copies[..n]));
      RetryRunQueues(w, setup, copies[..n], locked);
      F.HeldIffEnqueueIsIdle(s, setup.limits, DataOf(setup, copies[n]));
      assert AllData(setup, copies) == AllData(setup, copies[..n]) + [DataOf(setup, copies[n])];
      PassGrows(w.sched, setup.limits, AllData(setup, copies[..n]), DataOf(setup, copies[n]));
    }
  }

  lemma RetryKeepsLanes(w: Work, setup: Setup, c: Copy, locked: bool, all: seq<L.JobData>)
    requires SameLanes(w.sched.tracked, all) && DataOf(setup, c) in all
    ensures SameLanes(RetryStep(w, setup, c, locked).sched.tracked, all)
  {
    EnqueueKeepsLanes(w.sched, setup.limits, all, DataOf(setup, c));
  }

  /** One push job: skipped when held or locked elsewhere, else parked or queued. */
  method RetryPushJob(registry: PauseRegistry.Registry, repo: Repository, scheduler: LaneScheduler.Scheduler, job: DeliveryJob, setup: Setup, locked: bool)
    requires registry.Valid() && repo.Valid() && scheduler.Valid() && setup.scopes == registry.known.Keys && setup.limits == scheduler.limits
    requires job.consumer !in setup.cfg.pull
    requires job.id in scheduler.tracked ==> scheduler.tracked[job.id].data.lane == setup.lane(job.consumer)
    modifies repo, job, scheduler
    ensures repo.Valid() && scheduler.Valid() && CopyOf(job) == old(CopyOf(job))
    ensures Work(repo.tables, scheduler.State()) == RetryStep(old(Work(repo.tables, scheduler.State())), setup, old(CopyOf(job)), locked)
  {
    var data := L.JobData(job.id, setup.lane(job.consumer), job.priority, job.retries);
    var held := scheduler.IsHeld(data);
    if held || !locked { return; }
    var queued := ParkOrQueue(registry, repo, job, setup.now);
    if queued {
      var added := scheduler.Enqueue(data);
    }
  }

  /** One pull job: DEAD when it has no retries left. */
  method RetryPullJob(repo: Repository, job: DeliveryJob, cfg: Config, now: Time, locked: bool)
    requires repo.Valid()
    modifies repo, job
    ensures repo.Valid() && CopyOf(job) == old(CopyOf(job))
    ensures repo.tables == if job.retries >= cfg.maxRetry && locked
                           then Either(T.MarkQueuedJobAsDead(old(repo.tables), job.id, job.incrementalTimeout, now), old(repo.tables))
                           else old(repo.tables)
  {
    if job.retries >= cfg.maxRetry && locked {
      var ok := repo.UpdateJobStatus(job, Queued, Dead, now);
    }
  }

  /** The retry pass over the jobs that the query found; `locked` says whose lock was free. */
  method RetryPass(registry: PauseRegistry.Registry, repo: Repository, scheduler: LaneScheduler.Scheduler, jobs: seq<DeliveryJob>,
                   setup: Setup, locked: nat -> bool, ghost copies: seq<Copy>)
    requires registry.Valid() && repo.Valid() && scheduler.Valid() && setup.scopes == registry.known.Keys && setup.limits == scheduler.limits
    requires |copies| == |jobs| && forall i | 0 <= i < |jobs| :: copies[i] == CopyOf(jobs[i])
    requires SameLanes(scheduler.tracked, AllData(setup, copies))
    modifies repo, scheduler, jobs
    ensures repo.Valid() && scheduler.Valid()
    ensures Work(repo.tables, scheduler.State()) == RetryRun(old(Work(repo.tables, scheduler.State())), setup, copies, locked)
  {
    ghost var w, all := Work(repo.tables, scheduler.State()), AllData(setup, copies);
    for i := 0 to |jobs|
      invariant registry.Valid() && repo.Valid() && scheduler.Valid() && setup.scopes == registry.known.Keys
      invariant SameLanes(scheduler.tracked, all) && forall j | 0 <= j < |jobs| :: copies[j] == CopyOf(jobs[j])
      invariant Work(repo.tables, scheduler.State()) == RetryRun(w, setup, copies[..i], locked)
    {
      assert copies[..i + 1][..i] == copies[..i] && all[i] == DataOf(setup, copies[i]);
      RetryKeepsLanes(Work(repo.tables, scheduler.State()), setup, copies[i], locked(i), all);
      if jobs[i].consumer in setup.cfg.pull {
        RetryPullJob(repo, jobs[i], setup.cfg, setup.now, locked(i));
      } else {
        RetryPushJob(registry, repo, scheduler, jobs[i], setup, locked(i));
      }
    }
    assert copies[..|jobs|] == copies;
  }
}
