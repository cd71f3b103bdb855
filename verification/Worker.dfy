/** The decisions of a delivery worker and of the passes that feed it, as steps of the protocol. */
module Worker {
  import opened Types
  import opened Transactions
  import opened Protocol

  predicate ValidConfig(cfg: Config) {
    |cfg.backoffs| > 0
  }

  /** The wait before the given attempt: a configured backoff, then multiples of the last one. */
  function EarliestDelta(retryAttempt: nat, backoffs: seq<nat>): nat
    requires retryAttempt >= 1 && |backoffs| >= 1
  {
    if retryAttempt < |backoffs| then backoffs[retryAttempt - 1] else (retryAttempt - |backoffs| + 1) * backoffs[|backoffs| - 1]
  }

  /** The configured delays in turn, and after the last of them each wait is longer by the last delay. */
  lemma BackoffsThenMultiples(retryAttempt: nat, backoffs: seq<nat>)
    requires retryAttempt >= 1 && |backoffs| >= 1
    ensures retryAttempt <= |backoffs| ==> EarliestDelta(retryAttempt, backoffs) == backoffs[retryAttempt - 1]
    ensures retryAttempt >= |backoffs| ==>
              EarliestDelta(retryAttempt + 1, backoffs) == EarliestDelta(retryAttempt, backoffs) + backoffs[|backoffs| - 1]
  {
    if retryAttempt >= |backoffs| {
      var last, n := backoffs[|backoffs| - 1], retryAttempt - |backoffs| + 1;
      assert (n + 1) * last == n * last + last;
    }
  }

  /**
    One delivery attempt with the given copy of the job: hand it out, call the consumer (which
    answers `delivered` or fails), and record the outcome at the time `later`. A refused
    hand-out parks the job if its consumer is paused.
   */
  function DeliverySteps(cfg: Config, s: System, id: JobId, copyRetries: nat, timeout: nat, delivered: bool, now: Time, later: Time): seq<Step>
    requires ValidConfig(cfg)
  {
    if MarkJobInflight(s.db, id, copyRetries, timeout, now) == None then [Repark(id, later)]
    else if delivered then [HandOut(id, copyRetries, timeout, now), Deliver(id, timeout, later)]
    else if copyRetries >= cfg.maxRetry then [HandOut(id, copyRetries, timeout, now), Bury(id, timeout, later)]
    else [HandOut(id, copyRetries, timeout, now), Retry(id, copyRetries, EarliestDelta(copyRetries + 1, cfg.backoffs), later)]
  }

  /** The time before which a drained job is not retried: push jobs are left to the hand-off for the lease. */
  function DrainedUntil(cfg: Config, consumer: ConsumerId, now: Time): Time {
    if consumer in cfg.pull then now else now + cfg.lease
  }

  /** The retry pass picks a QUEUED push job whose next attempt is due. */
  predicate DueForAttempt(cfg: Config, db: Db, id: JobId, now: Time) {
    && HasStatus(db, id, Queued) && db.jobs[id].consumer !in cfg.pull
    && db.jobs[id].earliestNextAttemptAt <= now - cfg.rationalDelay
  }

  /** The recovery pass picks a push job that has been INFLIGHT for too long. */
  predicate StaleInflight(cfg: Config, db: Db, id: JobId, now: Time) {
    && HasStatus(db, id, Inflight) && db.jobs[id].consumer !in cfg.pull
    && db.jobs[id].statusChangedAt <= now - (cfg.stopTimeout + cfg.rationalDelay)
  }
}
