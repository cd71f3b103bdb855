/** One delivery attempt of a worker on the repository objects, as a run of the protocol. */
module Delivery {
  import opened Types
  import P = Protocol
  import W = Worker
  import J = JobLife
  import opened Repositories

  /** The calls of one attempt. */
  method RunAttempt(cfg: Config, repo: Repository, job: DeliveryJob, delivered: bool, now: Time, later: Time, ghost s: P.System)
    requires W.ValidConfig(cfg) && repo.Valid() && s.db == repo.tables
    modifies repo, job
    ensures repo.Valid()
    ensures repo.tables == P.Exec(cfg, s, W.DeliverySteps(cfg, s, job.id, old(job.retries), old(job.incrementalTimeout), delivered, now, later)).db
  {
    ghost var steps := W.DeliverySteps(cfg, s, job.id, job.retries, job.incrementalTimeout, delivered, now, later);
    ghost var timeout := job.incrementalTimeout;
    var ok := repo.MarkJobInflight(job, now);
    if !ok {
      P.ExecOne(cfg, s, P.Repark(job.id, later));
      var moved, parked := repo.ReparkQueuedJob(job, later);
      return;
    }
    ghost var handOut := P.HandOut(job.id, job.retries, timeout, now);
    if delivered {
      P.ExecTwo(cfg, s, handOut, P.Deliver(job.id, timeout, later));
      ok := repo.UpdateJobStatus(job, Inflight, Delivered, later);
    } else if job.retries >= cfg.maxRetry {
      P.ExecTwo(cfg, s, handOut, P.Bury(job.id, timeout, later));
      ok := repo.UpdateJobStatus(job, Inflight, Dead, later);
    } else {
      var delta := W.EarliestDelta(job.retries + 1, cfg.backoffs);
      P.ExecTwo(cfg, s, handOut, P.Retry(job.id, job.retries, delta, later));
      ok := repo.MarkJobRetry(job, delta, later);
    }
  }

  /**
    Hands the job out at `now`, calls the consumer and records the outcome at `later`. Whatever the rest of the
    system is, the tables end up as after the steps of one attempt in the protocol, and in a
    reachable state every job moves as one attempt of this job says.
   */
  method DeliverJob(cfg: Config, repo: Repository, job: DeliveryJob, delivered: bool, now: Time, later: Time, ghost s: P.System)
    requires W.ValidConfig(cfg) && repo.Valid() && s.db == repo.tables
    modifies repo, job
    ensures repo.Valid()
    ensures repo.tables == P.Exec(cfg, s, W.DeliverySteps(cfg, s, job.id, old(job.retries), old(job.incrementalTimeout), delivered, now, later)).db
    ensures P.Reachable(cfg, s) ==> forall j, from, to | J.IsAt(s.db, j, from) && J.IsAt(repo.tables, j, to) ::
              J.AttemptMoves(cfg, s, job.id, old(job.retries), old(job.incrementalTimeout), delivered, now, later, j, from, to)
  {
    ghost var retries, timeout := job.retries, job.incrementalTimeout;
    RunAttempt(cfg, repo, job, delivered, now, later, s);
    forall j, from, to | P.Reachable(cfg, s) && J.IsAt(s.db, j, from) && J.IsAt(repo.tables, j, to)
      ensures J.AttemptMoves(cfg, s, job.id, retries, timeout, delivered, now, later, j, from, to)
    {
      J.AttemptSteps(cfg, s, job.id, retries, timeout, delivered, now, later, j, from, to);
    }
  }
}
