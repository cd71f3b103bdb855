/**
  No job is stranded: from every reachable state without pauses the broker on its own, in a
  bounded number of drains and passes fixed in advance, takes every push job to DELIVERED or
  DEAD, whatever the consumers answer.
 */
module NoStranding {
  import opened Collections
  import opened Types
  import opened Transactions
  import opened Protocol
  import opened Placement
  import opened Worker

  /** What the broker does without any outside request. A pass goes over the jobs in some order. */
  datatype Action =
    | Drain(tx: nat, consumer: ConsumerId, pageSize: int, now: Time)
    | RecoveryPass(order: seq<JobId>, now: Time)
    | RetryPass(order: seq<JobId>, now: Time)

  /** The answer of the consumer of job `id` to the attempt made at count `retries`. */
  type Answers = (JobId, nat) -> bool

  /** The recovery of one job: nothing unless it is stale. */
  function Recover(cfg: Config, s: System, id: JobId, now: Time): System
    requires ValidConfig(cfg)
  {
    if !StaleInflight(cfg, s.db, id, now) then s else
    Exec(cfg, s, [Retry(id, s.db.jobs[id].retries, EarliestDelta(s.db.jobs[id].retries + 1, cfg.backoffs), now)])
  }

  /** An attempt of one job: nothing unless it is due. */
  function Attempt(cfg: Config, s: System, id: JobId, now: Time, answers: Answers): System
    requires ValidConfig(cfg)
  {
    if !DueForAttempt(cfg, s.db, id, now) then s else
    var row := s.db.jobs[id];
    Exec(cfg, s, DeliverySteps(cfg, s, id, row.retries, row.incrementalTimeout, answers(id, row.retries), now, now))
  }

  function RecoverAll(cfg: Config, s: System, order: seq<JobId>, now: Time): System
    requires ValidConfig(cfg)
  {
    if order == [] then s else
    var n := |order| - 1;
    Recover(cfg, RecoverAll(cfg, s, order[..n], now), order[n], now)
  }

  function AttemptAll(cfg: Config, s: System, order: seq<JobId>, now: Time, answers: Answers): System
    requires ValidConfig(cfg)
  {
    if order == [] then s else
    var n := |order| - 1;
    Attempt(cfg, AttemptAll(cfg, s, order[..n], now, answers), order[n], now, answers)
  }

  function Act(cfg: Config, s: System, action: Action, answers: Answers): System
    requires ValidConfig(cfg)
  {
    match action
    case Drain(tx, consumer, pageSize, now) => Exec(cfg, s, [BeginDrain(tx, consumer, pageSize), CommitDrain(tx, DrainedUntil(cfg, consumer, now), now)])
    case RecoveryPass(order, now) => RecoverAll(cfg, s, order, now)
    case RetryPass(order, now) => AttemptAll(cfg, s, order, now, answers)
  }

  function Play(cfg: Config, s: System, actions: seq<Action>, answers: Answers): System
    requires ValidConfig(cfg)
    decreases |actions|
  {
    if actions == [] then s else Play(cfg, Act(cfg, s, actions[0], answers), actions[1..], answers)
  }

  lemma {:induction false} PlayConcat(cfg: Config, s: System, a: seq<Action>, b: seq<Action>, answers: Answers)
    requires ValidConfig(cfg)
    ensures Play(cfg, s, a + b, answers) == Play(cfg, Play(cfg, s, a, answers), b, answers)
    decreases |a|
  {
    if a == [] {
      assert a + b == b;
    } else {
      assert (a + b)[0] == a[0] && (a + b)[1..] == a[1..] + b;
      PlayConcat(cfg, Act(cfg, s, a[0], answers), a[1..], b, answers);
    }
  }

  lemma PlayStep(cfg: Config, s: System, first: Action, rest: seq<Action>, answers: Answers)
    requires ValidConfig(cfg)
    ensures Play(cfg, s, [first] + rest, answers) == Play(cfg, Act(cfg, s, first, answers), rest, answers)
  {
    assert ([first] + rest)[1..] == rest;
  }

  // ---------- every action is a run of the protocol ----------

  lemma {:induction false} RecoverAllStaysReachable(cfg: Config, s: System, order: seq<JobId>, now: Time)
    requires ValidConfig(cfg) && Reachable(cfg, s)
    ensures Reachable(cfg, RecoverAll(cfg, s, order, now))
    decreases |order|
  {
    if order != [] {
      var n := |order| - 1;
      RecoverAllStaysReachable(cfg, s, order[..n], now);
      var u, id := RecoverAll(cfg, s, order[..n], now), order[n];
      if StaleInflight(cfg, u.db, id, now) {
        ReachableRun(cfg, u, [Retry(id, u.db.jobs[id].retries, EarliestDelta(u.db.jobs[id].retries + 1, cfg.backoffs), now)]);
      }
    }
  }

  lemma {:induction false} AttemptAllStaysReachable(cfg: Config, s: System, order: seq<JobId>, now: Time, answers: Answers)
    requires ValidConfig(cfg) && Reachable(cfg, s)
    ensures Reachable(cfg, AttemptAll(cfg, s, order, now, answers))
    decreases |order|
  {
    if order != [] {
      var n := |order| - 1;
      AttemptAllStaysReachable(cfg, s, order[..n], now, answers);
      var u, id := AttemptAll(cfg, s, order[..n], now, answers), order[n];
      if DueForAttempt(cfg, u.db, id, now) {
        var row := u.db.jobs[id];
        ReachableRun(cfg, u, DeliverySteps(cfg, u, id, row.retries, row.incrementalTimeout, answers(id, row.retries), now, now));
      }
    }
  }

  lemma {:induction false} PlayStaysReachable(cfg: Config, s: System, actions: seq<Action>, answers: Answers)
    requires ValidConfig(cfg) && Reachable(cfg, s)
    ensures Reachable(cfg, Play(cfg, s, actions, answers))
    decreases |actions|
  {
    if actions != [] {
      match actions[0] {
        case Drain(tx, consumer, pageSize, now) =>
          ReachableRun(cfg, s, [BeginDrain(tx, consumer, pageSize), CommitDrain(tx, DrainedUntil(cfg, consumer, now), now)]);
        case RecoveryPass(order, now) => RecoverAllStaysReachable(cfg, s, order, now);
        case RetryPass(order, now) => AttemptAllStaysReachable(cfg, s, order, now, answers);
      }
      PlayStaysReachable(cfg, Act(cfg, s, actions[0], answers), actions[1..], answers);
    }
  }

  // ---------- one clock ----------

  /** One clock runs through the actions, from `from` to `to`. */
  ghost predicate InOrder(actions: seq<Action>, from: Time, to: Time) {
    && from <= to && (forall i | 0 <= i < |actions| :: from <= actions[i].now <= to)
    && forall i, j | 0 <= i < j < |actions| :: actions[i].now <= actions[j].now
  }

  lemma InOrderConcat(a: seq<Action>, b: seq<Action>, from: Time, mid: Time, to: Time)
    requires InOrder(a, from, mid) && InOrder(b, mid, to)
    ensures InOrder(a + b, from, to)
  {
  }

  lemma InOrderCons(first: Action, rest: seq<Action>, mid: Time, to: Time)
    requires first.now <= mid && InOrder(rest, mid, to)
    ensures InOrder([first] + rest, first.now, to)
  {
    InOrderConcat([first], rest, first.now, mid, to);
  }

  function Later(a: Time, b: Time): Time {
    if a < b then b else a
  }

  /** At least the backoff before any attempt up to the given one. */
  function LongestDelta(cfg: Config, n: nat): (longest: nat)
    requires ValidConfig(cfg)
    ensures forall i | 1 <= i <= n :: EarliestDelta(i, cfg.backoffs) <= longest
  {
    if n == 0 then 0 else
    var rest, last := LongestDelta(cfg, n - 1), EarliestDelta(n, cfg.backoffs);
    if rest < last then last else rest
  }

  /** The time between two passes: no job that comes back has to wait longer. */
  function Gap(cfg: Config): nat
    requires ValidConfig(cfg)
  {
    LongestDelta(cfg, cfg.maxRetry) + cfg.rationalDelay
  }

  /** The time is late enough for a row: due if QUEUED, stale if INFLIGHT. */
  predicate LateEnough(cfg: Config, row: JobRow, now: Time) {
    match row.status
    case Queued => row.earliestNextAttemptAt <= now - cfg.rationalDelay
    case Inflight => row.statusChangedAt <= now - (cfg.stopTimeout + cfg.rationalDelay)
    case _ => true
  }

  lemma {:induction false} FindTime(cfg: Config, db: Db, ids: set<JobId>, start: Time) returns (now: Time)
    requires ids <= db.jobs.Keys
    ensures start <= now && forall id | id in ids :: LateEnough(cfg, db.jobs[id], now)
    decreases |ids|
  {
    if ids == {} {
      now := start;
    } else {
      var id :| id in ids;
      var row := db.jobs[id];
      var rest := FindTime(cfg, db, ids - {id}, start);
      now := Later(rest, Later(row.earliestNextAttemptAt, row.statusChangedAt) + cfg.stopTimeout + cfg.rationalDelay);
      forall i | i in ids ensures LateEnough(cfg, db.jobs[i], now) {
        if i != id { assert i in ids - {id}; }
      }
    }
  }

  // ---------- one job ----------

  predicate Settled(db: Db, id: JobId) {
    HasStatus(db, id, Delivered) || HasStatus(db, id, Dead)
  }

  /** Whether one of the attempts left to a job at count `r` is accepted. */
  predicate Accepted(cfg: Config, answers: Answers, id: JobId, r: nat)
    decreases if cfg.maxRetry > r then cfg.maxRetry - r else 0
  {
    answers(id, r) || (r < cfg.maxRetry && Accepted(cfg, answers, id, r + 1))
  }

  /** Whether a job with the given status and count is to end DELIVERED. A recovered attempt counts as failed. */
  predicate EndsDelivered(cfg: Config, answers: Answers, id: JobId, status: JobStatus, r: nat) {
    match status
    case Queued => Accepted(cfg, answers, id, r)
    case Inflight => Accepted(cfg, answers, id, r + 1)
    case _ => status == Delivered
  }

  /** What an attempt makes of a row. */
  predicate IsAttempted(cfg: Config, id: JobId, row: JobRow, row': JobRow, now: Time, answers: Answers)
    requires ValidConfig(cfg)
  {
    if row.status != Queued || row.consumer in cfg.pull || !LateEnough(cfg, row, now) then row' == row else
    && row'.consumer == row.consumer
    && if answers(id, row.retries) then row'.status == Delivered
       else if row.retries >= cfg.maxRetry then row'.status == Dead
       else
         && row'.status == Queued && row'.retries == row.retries + 1
         && row'.earliestNextAttemptAt == now + EarliestDelta(row.retries + 1, cfg.backoffs)
  }

  /** What a recovery makes of a row. */
  predicate IsRecovered(cfg: Config, row: JobRow, row': JobRow, now: Time) {
    if row.status != Inflight || row.consumer in cfg.pull || !LateEnough(cfg, row, now) then row' == row else
    row'.consumer == row.consumer && row'.status == Queued && row'.retries == row.retries + 1
  }

  /** Only the row of job `id` differs. */
  ghost predicate OnlyJob(s: System, t: System, id: JobId) {
    id in t.db.jobs && t == s.(db := s.db.(jobs := s.db.jobs[id := t.db.jobs[id]]))
  }

  /** A due job of a consumer that is not paused is always handed out. */
  lemma HandOutWorks(cfg: Config, s: System, id: JobId, now: Time)
    requires ValidConfig(cfg) && DueForAttempt(cfg, s.db, id, now) && s.db.pauses == {}
    ensures var row := s.db.jobs[id];
            Do(cfg, s, HandOut(id, row.retries, row.incrementalTimeout, now)) == s.(db := WithJob(s.db, id, row.(status := Inflight, statusChangedAt := now, updatedAt := now)))
  {
  }

  lemma OneAttempt(cfg: Config, s: System, id: JobId, now: Time, answers: Answers)
    requires ValidConfig(cfg) && s.db.pauses == {} && id in s.db.jobs
    ensures var t := Attempt(cfg, s, id, now, answers);
            OnlyJob(s, t, id) && IsAttempted(cfg, id, s.db.jobs[id], t.db.jobs[id], now, answers)
  {
    if DueForAttempt(cfg, s.db, id, now) {
      var row := s.db.jobs[id];
      var steps := DeliverySteps(cfg, s, id, row.retries, row.incrementalTimeout, answers(id, row.retries), now, now);
      HandOutWorks(cfg, s, id, now);
      ExecTwo(cfg, s, steps[0], steps[1]);
      assert steps == [steps[0], steps[1]];
    } else {
      assert s.db.jobs[id := s.db.jobs[id]] == s.db.jobs;
    }
  }

  lemma OneRecovery(cfg: Config, s: System, id: JobId, now: Time)
    requires ValidConfig(cfg) && id in s.db.jobs
    ensures var t := Recover(cfg, s, id, now); OnlyJob(s, t, id) && IsRecovered(cfg, s.db.jobs[id], t.db.jobs[id], now)
  {
    if StaleInflight(cfg, s.db, id, now) {
      ExecOne(cfg, s, Retry(id, s.db.jobs[id].retries, EarliestDelta(s.db.jobs[id].retries + 1, cfg.backoffs), now));
    } else {
      assert s.db.jobs[id := s.db.jobs[id]] == s.db.jobs;
    }
  }

  // ---------- one pass ----------

  ghost predicate EachOnce(order: seq<JobId>) {
    forall i, j | 0 <= i < j < |order| :: order[i] != order[j]
  }

  /** The pass goes over each job once. */
  ghost predicate IsListing(order: seq<JobId>, ids: set<JobId>) {
    EachOnce(order) && forall id | id in ids :: id in order
  }

  /** Only rows of the job table differ. */
  ghost predicate SameButJobs(s: System, t: System) {
    t == s.(db := s.db.(jobs := t.db.jobs)) && t.db.jobs.Keys == s.db.jobs.Keys
  }

  lemma {:induction false} AttemptAllRows(cfg: Config, s: System, order: seq<JobId>, now: Time, answers: Answers)
    requires ValidConfig(cfg) && s.db.pauses == {} && EachOnce(order)
    ensures var t := AttemptAll(cfg, s, order, now, answers);
            SameButJobs(s, t) && forall id | id in s.db.jobs ::
              if id in order then IsAttempted(cfg, id, s.db.jobs[id], t.db.jobs[id], now, answers) else t.db.jobs[id] == s.db.jobs[id]
    decreases |order|
  {
    if order != [] {
      var n := |order| - 1;
      var rest, last := order[..n], order[n];
      assert order == rest + [last] && last !in rest;
      AttemptAllRows(cfg, s, rest, now, answers);
      if last in s.db.jobs { OneAttempt(cfg, AttemptAll(cfg, s, rest, now, answers), last, now, answers); }
    }
  }

  lemma {:induction false} RecoverAllRows(cfg: Config, s: System, order: seq<JobId>, now: Time)
    requires ValidConfig(cfg) && EachOnce(order)
    ensures var t := RecoverAll(cfg, s, order, now);
            SameButJobs(s, t) && forall id | id in s.db.jobs ::
              if id in order then IsRecovered(cfg, s.db.jobs[id], t.db.jobs[id], now) else t.db.jobs[id] == s.db.jobs[id]
    decreases |order|
  {
    if order != [] {
      var n := |order| - 1;
      var rest, last := order[..n], order[n];
      assert order == rest + [last] && last !in rest;
      RecoverAllRows(cfg, s, rest, now);
      if last in s.db.jobs { OneRecovery(cfg, RecoverAll(cfg, s, rest, now), last, now); }
    }
  }

  // ---------- all passes ----------

  predicate IsPush(cfg: Config, db: Db, id: JobId) {
    id in db.jobs && db.jobs[id].consumer !in cfg.pull
  }

  predicate Fate(cfg: Config, db: Db, id: JobId, answers: Answers)
    requires id in db.jobs
  {
    EndsDelivered(cfg, answers, id, db.jobs[id].status, db.jobs[id].retries)
  }

  /** The push jobs are the same, and each is to end as before. */
  ghost predicate SameFates(cfg: Config, a: Db, b: Db, answers: Answers) {
    forall id | IsPush(cfg, a, id) :: IsPush(cfg, b, id) && Fate(cfg, b, id, answers) == Fate(cfg, a, id, answers)
  }

  /** A push job after `k` retry passes: settled, or waiting with at least so many retries, and not too many to go on. */
  predicate IsReady(cfg: Config, row: JobRow, k: nat, now: Time) {
    || row.status == Delivered || row.status == Dead
    || (row.status == Queued && LateEnough(cfg, row, now) && k <= row.retries && (k > 0 ==> row.retries <= cfg.maxRetry))
  }

  ghost predicate AllReady(cfg: Config, db: Db, k: nat, now: Time) {
    forall id | IsPush(cfg, db, id) :: IsReady(cfg, db.jobs[id], k, now)
  }

  lemma AttemptKeepsFate(cfg: Config, id: JobId, row: JobRow, row': JobRow, k: nat, now: Time, answers: Answers)
    requires ValidConfig(cfg) && row.consumer !in cfg.pull && IsReady(cfg, row, k, now) && IsAttempted(cfg, id, row, row', now, answers)
    ensures row'.consumer == row.consumer && IsReady(cfg, row', k + 1, now + Gap(cfg))
    ensures EndsDelivered(cfg, answers, id, row'.status, row'.retries) == EndsDelivered(cfg, answers, id, row.status, row.retries)
  {
  }

  lemma RetryPassKeepsFates(cfg: Config, s: System, order: seq<JobId>, k: nat, now: Time, answers: Answers)
    requires ValidConfig(cfg) && s.db.pauses == {} && IsListing(order, s.db.jobs.Keys) && AllReady(cfg, s.db, k, now)
    ensures var t := AttemptAll(cfg, s, order, now, answers);
            SameButJobs(s, t) && AllReady(cfg, t.db, k + 1, now + Gap(cfg)) && SameFates(cfg, s.db, t.db, answers)
  {
    var t := AttemptAll(cfg, s, order, now, answers);
    AttemptAllRows(cfg, s, order, now, answers);
    forall id | id in s.db.jobs
      ensures t.db.jobs[id].consumer == s.db.jobs[id].consumer
      ensures IsPush(cfg, s.db, id) ==> IsReady(cfg, t.db.jobs[id], k + 1, now + Gap(cfg)) && Fate(cfg, t.db, id, answers) == Fate(cfg, s.db, id, answers)
    {
      assert id in order;
      if IsPush(cfg, s.db, id) { AttemptKeepsFate(cfg, id, s.db.jobs[id], t.db.jobs[id], k, now, answers); }
    }
  }

  /** Retry passes over all jobs in the given orders, a gap apart. */
  function RetryPasses(cfg: Config, orders: seq<seq<JobId>>, now: Time): (actions: seq<Action>)
    requires ValidConfig(cfg)
    ensures |actions| == |orders| && forall i | 0 <= i < |orders| :: actions[i].RetryPass? && actions[i].order == orders[i]
    decreases |orders|
  {
    if orders == [] then [] else [RetryPass(orders[0], now)] + RetryPasses(cfg, orders[1..], now + Gap(cfg))
  }

  lemma {:induction false} RetryPassesInOrder(cfg: Config, orders: seq<seq<JobId>>, now: Time) returns (end: Time)
    requires ValidConfig(cfg)
    ensures InOrder(RetryPasses(cfg, orders, now), now, end)
    decreases |orders|
  {
    end := now;
    if orders != [] {
      var next := now + Gap(cfg);
      end := RetryPassesInOrder(cfg, orders[1..], next);
      InOrderCons(RetryPass(orders[0], now), RetryPasses(cfg, orders[1..], next), next, end);
    }
  }

  /** Every pass goes over each job once, in an order of its own. */
  ghost predicate AreListings(orders: seq<seq<JobId>>, ids: set<JobId>) {
    forall i | 0 <= i < |orders| :: IsListing(orders[i], ids)
  }

  ghost predicate AllSettled(cfg: Config, db: Db) {
    forall id | IsPush(cfg, db, id) :: Settled(db, id)
  }

  lemma NoneIsLeft(cfg: Config, db: Db, k: nat, now: Time, answers: Answers)
    requires AllReady(cfg, db, k, now) && k > cfg.maxRetry
    ensures AllSettled(cfg, db) && SameFates(cfg, db, db, answers)
  {
    forall id | IsPush(cfg, db, id) ensures Settled(db, id) {
      assert IsReady(cfg, db.jobs[id], k, now);
    }
  }

  lemma FatesCarryOver(cfg: Config, a: Db, b: Db, c: Db, answers: Answers)
    requires SameFates(cfg, a, b, answers) && SameFates(cfg, b, c, answers)
    ensures SameFates(cfg, a, c, answers)
  {
    forall id | IsPush(cfg, a, id) ensures IsPush(cfg, c, id) && Fate(cfg, c, id, answers) == Fate(cfg, a, id, answers) {
      assert IsPush(cfg, b, id);
    }
  }

  lemma FirstPass(cfg: Config, s: System, orders: seq<seq<JobId>>, k: nat, now: Time, answers: Answers) returns (u: System)
    requires ValidConfig(cfg) && s.db.pauses == {} && orders != [] && IsListing(orders[0], s.db.jobs.Keys) && AllReady(cfg, s.db, k, now)
    ensures SameButJobs(s, u) && AllReady(cfg, u.db, k + 1, now + Gap(cfg)) && SameFates(cfg, s.db, u.db, answers)
    ensures Play(cfg, s, RetryPasses(cfg, orders, now), answers) == Play(cfg, u, RetryPasses(cfg, orders[1..], now + Gap(cfg)), answers)
  {
    u := AttemptAll(cfg, s, orders[0], now, answers);
    RetryPassKeepsFates(cfg, s, orders[0], k, now, answers);
    PlayStep(cfg, s, RetryPass(orders[0], now), RetryPasses(cfg, orders[1..], now + Gap(cfg)), answers);
  }

  /** Retry passes beyond the limit settle every push job as the answers decide, in whatever order each takes the jobs. */
  lemma {:induction false} PassesSettle(cfg: Config, s: System, orders: seq<seq<JobId>>, k: nat, now: Time, answers: Answers)
    requires ValidConfig(cfg) && s.db.pauses == {} && AreListings(orders, s.db.jobs.Keys) && AllReady(cfg, s.db, k, now) && k + |orders| > cfg.maxRetry
    ensures var t := Play(cfg, s, RetryPasses(cfg, orders, now), answers);
            AllSettled(cfg, t.db) && SameFates(cfg, s.db, t.db, answers)
    decreases |orders|
  {
    if orders == [] {
      NoneIsLeft(cfg, s.db, k, now, answers);
    } else {
      var u := FirstPass(cfg, s, orders, k, now, answers);
      PassesSettle(cfg, u, orders[1..], k + 1, now + Gap(cfg), answers);
      FatesCarryOver(cfg, s.db, u.db, Play(cfg, u, RetryPasses(cfg, orders[1..], now + Gap(cfg)), answers).db, answers);
    }
  }

  /** A recovery pass late enough leaves no push job INFLIGHT. */
  lemma RecoveryPassKeepsFates(cfg: Config, s: System, order: seq<JobId>, now: Time, answers: Answers)
    requires ValidConfig(cfg) && IsListing(order, s.db.jobs.Keys)
    requires forall id | id in s.db.jobs :: LateEnough(cfg, s.db.jobs[id], now)
    ensures var t := RecoverAll(cfg, s, order, now);
            && SameButJobs(s, t) && SameFates(cfg, s.db, t.db, answers)
            && forall id | IsPush(cfg, t.db, id) :: IsPush(cfg, s.db, id) && t.db.jobs[id].status != Inflight && (t.db.jobs[id].status == Parked ==> s.db.jobs[id].status == Parked)
  {
    var t := RecoverAll(cfg, s, order, now);
    RecoverAllRows(cfg, s, order, now);
    assert forall id | id in s.db.jobs :: id in order && IsRecovered(cfg, s.db.jobs[id], t.db.jobs[id], now);
  }

  /** The passes of a schedule: one recovery pass, then retry passes, in the given orders. */
  ghost predicate ArePasses(actions: seq<Action>, orders: seq<seq<JobId>>) {
    && |actions| == |orders| && forall i | 0 <= i < |actions| ::
         actions[i] == (if i == 0 then RecoveryPass(orders[i], actions[i].now) else RetryPass(orders[i], actions[i].now))
  }

  /** One recovery pass and max-retry + 1 retry passes, at times fixed in advance, settle every push job. */
  lemma SettleAll(cfg: Config, s: System, orders: seq<seq<JobId>>, start: Time) returns (actions: seq<Action>, end: Time)
    requires ValidConfig(cfg) && s.db.pauses == {} && AreListings(orders, s.db.jobs.Keys) && |orders| == cfg.maxRetry + 2
    requires forall id | id in s.db.jobs :: s.db.jobs[id].status != Parked
    ensures ArePasses(actions, orders) && InOrder(actions, start, end)
    ensures forall answers :: AllSettled(cfg, Play(cfg, s, actions, answers).db) && SameFates(cfg, s.db, Play(cfg, s, actions, answers).db, answers)
  {
    var order := orders[0];
    var first := FindTime(cfg, s.db, s.db.jobs.Keys, start);
    var u := RecoverAll(cfg, s, order, first);
    RecoverAllRows(cfg, s, order, first);
    var now := FindTime(cfg, u.db, u.db.jobs.Keys, first);
    var retries := RetryPasses(cfg, orders[1..], now);
    end := RetryPassesInOrder(cfg, orders[1..], now);
    actions := [RecoveryPass(order, first)] + retries;
    InOrderConcat([RecoveryPass(order, first)], retries, start, now, end);
    forall answers ensures AllSettled(cfg, Play(cfg, s, actions, answers).db) && SameFates(cfg, s.db, Play(cfg, s, actions, answers).db, answers) {
      RecoveryPassKeepsFates(cfg, s, order, first, answers);
      PassesSettle(cfg, u, orders[1..], 0, now, answers);
      FatesCarryOver(cfg, s.db, u.db, Play(cfg, u, retries, answers).db, answers);
      PlayStep(cfg, s, RecoveryPass(order, first), retries, answers);
    }
  }

  // ---------- draining ----------

  lemma {:induction false} FreshTx(used: set<nat>) returns (tx: nat)
    ensures forall u | u in used :: u < tx
    decreases |used|
  {
    if used == {} {
      tx := 0;
    } else {
      var u :| u in used;
      var t := FreshTx(used - {u});
      tx := if t > u then t else u + 1;
      assert used == (used - {u}) + {u};
    }
  }

  lemma BeginReads(cfg: Config, s: System, tx: nat, consumer: ConsumerId, pageSize: nat)
    ensures Do(cfg, s, BeginDrain(tx, consumer, pageSize)) == s.(drains := s.drains[tx := ReadDrainPage(s.db, consumer, pageSize)])
  {
  }

  lemma UndisturbedDrain(cfg: Config, s: System, tx: nat, consumer: ConsumerId, pageSize: nat, earliest: Time, now: Time)
    requires tx !in s.drains
    ensures Exec(cfg, s, [BeginDrain(tx, consumer, pageSize), CommitDrain(tx, earliest, now)])
            == WithDb(s, CommitDrainPage(s.db, ReadDrainPage(s.db, consumer, pageSize), earliest, now))
  {
    var u := s.(drains := s.drains[tx := ReadDrainPage(s.db, consumer, pageSize)]);
    ExecTwo(cfg, s, BeginDrain(tx, consumer, pageSize), CommitDrain(tx, earliest, now));
    BeginReads(cfg, s, tx, consumer, pageSize);
    assert u.drains - {tx} == s.drains;
    assert u.(drains := u.drains - {tx}) == s;
    assert DoCommit(u, tx, earliest, now) == WithDb(s, CommitDrainPage(s.db, u.drains[tx], earliest, now));
  }

  /** Status and count of a job, wherever its row is; a parked job counts as QUEUED. */
  ghost predicate Stands(db: Db, id: JobId, status: JobStatus, r: nat) {
    || (HasStatus(db, id, status) && db.jobs[id].retries == r)
    || (status == Queued && exists k :: k in db.parked && db.parked[k].id == id && db.parked[k].retries == r)
  }

  lemma DrainedStands(s: System, page: seq<ParkedEntry>, earliest: Time, now: Time, id: JobId, status: JobStatus, r: nat)
    requires Inv(s) && PageIsParked(s, page) && Stands(s.db, id, status, r)
    ensures Stands(Drained(s, page, earliest, now).db, id, status, r)
  {
    var t := Drained(s, page, earliest, now);
    DrainedJob(s, page, earliest, now, id);
    if id in s.db.jobs {
      assert forall i | 0 <= i < |page| :: s.db.parked[page[i].seqNo].id != id;
    } else {
      var k :| k in s.db.parked && s.db.parked[k].id == id && s.db.parked[k].retries == r;
      if FromPage(page, id) {
        var i :| 0 <= i < |page| && page[i].row.id == id && t.db.jobs[id] == DrainedRow(page[i].row, earliest, now);
        assert s.db.parked[page[i].seqNo].id == id && page[i].seqNo == k;
      } else {
        assert forall i | 0 <= i < |page| :: page[i].seqNo != k;
        assert k in t.db.parked && t.db.parked[k].id == id;
      }
    }
  }

  /** A drain of a consumer with parked jobs moves at least one of them, and nothing but its page. */
  lemma OneDrain(cfg: Config, s: System, tx: nat, k: nat, pageSize: nat, earliest: Time, now: Time)
    requires Reachable(cfg, s) && s.db.pauses == {} && tx !in s.drains && k in s.db.parked && pageSize > 0
    ensures var t := Exec(cfg, s, [BeginDrain(tx, s.db.parked[k].consumer, pageSize), CommitDrain(tx, earliest, now)]);
            && |t.db.parked| < |s.db.parked| && t.db.pauses == {} && t.created == s.created && t.removed == s.removed
            && forall id, status, r | Stands(s.db, id, status, r) :: Stands(t.db, id, status, r)
  {
    var consumer := s.db.parked[k].consumer;
    var page := ReadDrainPage(s.db, consumer, pageSize);
    UndisturbedDrain(cfg, s, tx, consumer, pageSize, earliest, now);
    ReachableInv(cfg, s);
    assert k in ParkedOf(s.db, consumer);
    OldestRowsAreDistinct(ParkedOf(s.db, consumer), pageSize);
    DrainMoves(s, page, earliest, now);
  }

  lemma DrainMoves(s: System, page: seq<ParkedEntry>, earliest: Time, now: Time)
    requires Inv(s) && AllPresent(s.db, page) && DistinctSeqNos(page) && page != []
    requires forall i | 0 <= i < |page| :: s.db.parked[page[i].seqNo] == page[i].row
    ensures var t := WithDb(s, CommitDrainPage(s.db, page, earliest, now));
            && |t.db.parked| < |s.db.parked| && t == s.(db := s.db.(parked := t.db.parked, jobs := t.db.jobs))
            && forall id, status, r | Stands(s.db, id, status, r) :: Stands(t.db, id, status, r)
  {
    DrainCommitsIffAllPresent(s, page, earliest, now);
    var t := Drained(s, page, earliest, now);
    DrainShrinks(s, page, earliest, now);
    forall id, status, r | Stands(s.db, id, status, r) ensures Stands(t.db, id, status, r) {
      DrainedStands(s, page, earliest, now, id, status, r);
    }
  }

  lemma DrainShrinks(s: System, page: seq<ParkedEntry>, earliest: Time, now: Time)
    requires PageIsParked(s, page) && page != []
    ensures |Drained(s, page, earliest, now).db.parked| < |s.db.parked|
  {
    var t := Drained(s, page, earliest, now);
    assert page[0].seqNo in SeqNos(page) && page[0].seqNo !in t.db.parked;
    assert t.db.parked.Keys < s.db.parked.Keys;
    SmallerSubset(t.db.parked.Keys, s.db.parked.Keys);
  }

  lemma {:induction false} DrainAll(cfg: Config, s: System, pageSize: nat, now: Time) returns (actions: seq<Action>, t: System)
    requires ValidConfig(cfg) && Reachable(cfg, s) && s.db.pauses == {} && pageSize > 0
    ensures |actions| <= |s.db.parked| && InOrder(actions, now, now) && forall a | a in actions :: a.Drain?
    ensures forall answers :: Play(cfg, s, actions, answers) == t
    ensures Reachable(cfg, t) && t.db.parked == map[] && t.db.pauses == {} && t.created == s.created && t.removed == s.removed
    ensures forall id, status, r | Stands(s.db, id, status, r) :: Stands(t.db, id, status, r)
    decreases |s.db.parked|
  {
    if s.db.parked == map[] {
      actions, t := [], s;
    } else {
      var k :| k in s.db.parked;
      var tx := FreshTx(s.drains.Keys);
      var consumer := s.db.parked[k].consumer;
      var earliest := DrainedUntil(cfg, consumer, now);
      OneDrain(cfg, s, tx, k, pageSize, earliest, now);
      var drain, steps := Drain(tx, consumer, pageSize, now), [BeginDrain(tx, consumer, pageSize), CommitDrain(tx, earliest, now)];
      ReachableRun(cfg, s, steps);
      var rest;
      rest, t := DrainAll(cfg, Exec(cfg, s, steps), pageSize, now);
      actions := [drain] + rest;
      InOrderConcat([drain], rest, now, now, now);
      forall answers ensures Play(cfg, s, actions, answers) == t {
        assert Act(cfg, s, drain, answers) == Exec(cfg, s, steps);
        PlayStep(cfg, s, drain, rest, answers);
      }
    }
  }

  // ---------- the theorem ----------

  function LiveJobs(s: System): set<JobId> {
    s.created.Keys - s.removed
  }

  /** The job is owed by a push consumer. */
  predicate IsOwed(cfg: Config, s: System, id: JobId) {
    id in LiveJobs(s) && s.created[id].consumer !in cfg.pull
  }

  /** Settled in `t`, and DELIVERED exactly when its standing in `s` and the answers say so. */
  ghost predicate EndsAsAnswered(cfg: Config, s: System, t: System, id: JobId, answers: Answers) {
    && Settled(t.db, id)
    && forall status, r | Stands(s.db, id, status, r) :: HasStatus(t.db, id, Delivered) <==> EndsDelivered(cfg, answers, id, status, r)
  }

  lemma DrainedThenSettled(cfg: Config, s: System, t: System, u: System, id: JobId, answers: Answers)
    requires JobsAreLive(t) && LiveAreStored(t) && t.db.parked == map[] && t.created == s.created && t.removed == s.removed
    requires forall status, r | Stands(s.db, id, status, r) :: Stands(t.db, id, status, r)
    requires IsOwed(cfg, s, id) && AllSettled(cfg, u.db) && SameFates(cfg, t.db, u.db, answers)
    ensures EndsAsAnswered(cfg, s, u, id, answers)
  {
    assert Live(t, id) && !ParkedSomewhere(t, id);
    assert IsPush(cfg, t.db, id) && IsPush(cfg, u.db, id);
  }

  lemma AllAreListed(s: System, t: System, orders: seq<seq<JobId>>)
    requires JobsAreLive(t) && t.created == s.created && t.removed == s.removed && AreListings(orders, LiveJobs(s))
    ensures AreListings(orders, t.db.jobs.Keys)
  {
    assert forall id | id in t.db.jobs :: Live(t, id) && id in LiveJobs(s);
    forall i | 0 <= i < |orders| ensures IsListing(orders[i], t.db.jobs.Keys) {
      assert IsListing(orders[i], LiveJobs(s));
    }
  }

  /**
    There are broker actions, at most one drain per parked job, one recovery pass and
    max-retry + 1 retry passes, after which every push job that is still owed is settled, for
    all answers of the consumers: DELIVERED exactly when one of its remaining attempts is
    accepted, DEAD otherwise. Every pass takes all the jobs that are due, in any order. One
    clock, which starts at `start`, runs through the actions.
   */
  lemma NoJobIsStranded(cfg: Config, s: System, pageSize: nat, start: Time, orders: seq<seq<JobId>>)
    returns (drains: seq<Action>, passes: seq<Action>, end: Time)
    requires ValidConfig(cfg) && Reachable(cfg, s) && s.db.pauses == {} && pageSize > 0
    requires |orders| == cfg.maxRetry + 2 && AreListings(orders, LiveJobs(s))
    ensures |drains| <= |s.db.parked| && (forall a | a in drains :: a.Drain?)
    ensures ArePasses(passes, orders) && InOrder(drains + passes, start, end)
    ensures forall answers, id | IsOwed(cfg, s, id) :: EndsAsAnswered(cfg, s, Play(cfg, s, drains + passes, answers), id, answers)
    ensures forall answers :: Reachable(cfg, Play(cfg, s, drains + passes, answers))
  {
    var t;
    drains, t := DrainAll(cfg, s, pageSize, start);
    ReachableInv(cfg, t);
    AllAreListed(s, t, orders);
    passes, end := SettleAll(cfg, t, orders, start);
    var actions := drains + passes;
    InOrderConcat(drains, passes, start, start, end);
    forall answers ensures Play(cfg, s, actions, answers) == Play(cfg, t, passes, answers) {
      PlayConcat(cfg, s, drains, passes, answers);
    }
    forall answers, id | IsOwed(cfg, s, id) ensures EndsAsAnswered(cfg, s, Play(cfg, s, actions, answers), id, answers) {
      DrainedThenSettled(cfg, s, t, Play(cfg, t, passes, answers), id, answers);
    }
    forall answers ensures Reachable(cfg, Play(cfg, s, actions, answers)) {
      PlayStaysReachable(cfg, s, actions, answers);
    }
  }

  /** Every job that is owed stands somewhere, so the outcome above is always decided. */
  lemma OwedJobsStand(cfg: Config, s: System, id: JobId)
    requires Reachable(cfg, s) && id in LiveJobs(s)
    ensures exists status, r :: Stands(s.db, id, status, r)
  {
    ReachableInv(cfg, s);
    assert Live(s, id);
    if id in s.db.jobs {
      assert Stands(s.db, id, s.db.jobs[id].status, s.db.jobs[id].retries);
    } else {
      var k :| k in s.db.parked && s.db.parked[k].id == id;
      assert Stands(s.db, id, Queued, s.db.parked[k].retries);
    }
  }
}
