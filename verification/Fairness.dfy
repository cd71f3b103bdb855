/** What the scheduler guarantees over whole runs of calls: selection, order, turns, and skipped work. */
module Fairness {
  import opened Collections
  import opened Types
  import opened JobQueue
  import opened Lanes

  datatype Op = Enq(data: JobData) | Next | Fin(data: JobData) | Discard

  /** A fresh copy has the lane of the held one, and a job is released once per time it is taken. */
  predicate Legal(s: Sched, op: Op) {
    match op
    case Enq(data) => data.id in s.tracked ==> s.tracked[data.id].data.lane == data.lane
    case Fin(data) => IsRunning(s, data)
    case _ => true
  }

  function Apply(s: Sched, limits: Limits, op: Op): Sched {
    match op
    case Enq(data) => Enqueue(s, limits, data)
    case Next => if AllCanRun(s.lanes, s.ready) then TryNext(s).0 else s
    case Fin(data) => Done(s, data)
    case Discard => DiscardQueued(s)
  }

  lemma OpKeepsValid(s: Sched, limits: Limits, op: Op)
    requires Valid(s, limits) && Legal(s, op)
    ensures Valid(Apply(s, limits, op), limits)
  {
    match op
    case Enq(data) => EnqueueKeepsValid(s, limits, data);
    case Next => TryNextKeepsValid(s, limits);
    case Fin(data) => DoneKeepsValid(s, limits, data);
    case Discard => DiscardKeepsValid(s, limits);
  }

  /** The state after a list of calls on a new scheduler. */
  function Run(limits: Limits, ops: seq<Op>): Sched {
    if ops == [] then NewSched else Apply(Run(limits, ops[..|ops| - 1]), limits, ops[|ops| - 1])
  }

  predicate LegalRun(limits: Limits, ops: seq<Op>) {
    ops == [] || (LegalRun(limits, ops[..|ops| - 1]) && Legal(Run(limits, ops[..|ops| - 1]), ops[|ops| - 1]))
  }

  /**
    After every legal sequence of calls the ready list is exactly the lanes that can run, the
    tracked jobs are the waiting and the running ones, and every lane counts its running jobs
    within its limit.
   */
  lemma {:induction false} RunIsValid(limits: Limits, ops: seq<Op>)
    requires LegalRun(limits, ops)
    ensures Valid(Run(limits, ops), limits)
  {
    if ops != [] {
      RunIsValid(limits, ops[..|ops| - 1]);
      OpKeepsValid(Run(limits, ops[..|ops| - 1]), limits, ops[|ops| - 1]);
    }
  }

  // ---------- selection ----------

  /** `TryNext` hands out a job of the highest priority among all waiting jobs in lanes with room, and none exactly when no lane can run. */
  lemma NextIsOfHighestPriority(limits: Limits, ops: seq<Op>)
    requires LegalRun(limits, ops)
    ensures var s := Run(limits, ops);
            && AllCanRun(s.lanes, s.ready)
            && (TryNext(s).1 == None <==> forall key | key in s.lanes :: !CanRun(s.lanes[key]))
            && forall key, e | key in s.lanes && HasRoom(s.lanes[key]) && e in s.lanes[key].queue ::
                 TryNext(s).1.Some? && e.priority <= TryNext(s).1.value.priority
  {
    RunIsValid(limits, ops);
    var s := Run(limits, ops);
    ValidCanRun(s);
    assert s.ready != [] ==> s.ready[0] in s.ready;
    forall key, e | key in s.lanes && HasRoom(s.lanes[key]) && e in s.lanes[key].queue
      ensures TryNext(s).1.Some? && e.priority <= TryNext(s).1.value.priority
    {
      assert LaneIsExact(s, limits, key);
      var i :| 0 <= i < |s.lanes[key].queue| && s.lanes[key].queue[i] == e;
      assert e.priority <= HeadPriority(s.lanes, key);
      var j :| 0 <= j < |s.ready| && s.ready[j] == key;
      assert HeadPriority(s.lanes, s.ready[j]) <= HeadPriority(s.lanes, s.ready[BestIndex(s.lanes, s.ready)]);
    }
  }

  // ---------- order within a lane ----------

  datatype Stamp = Stamp(lane: LaneKey, entry: Entry)

  /** The log of accepted jobs after a call. */
  function Accept(s: Sched, op: Op, log: seq<Stamp>): seq<Stamp> {
    if op.Enq? && op.data.id !in s.tracked then log + [Stamp(op.data.lane, EntryFor(s, op.data))] else log
  }

  /** The log of jobs handed out after a call. */
  function HandOut(s: Sched, op: Op, log: seq<Stamp>): seq<Stamp> {
    if op.Next? && AllCanRun(s.lanes, s.ready) && s.ready != [] then
      var key := s.ready[BestIndex(s.lanes, s.ready)];
      log + [Stamp(key, s.lanes[key].queue[0])]
    else
      log
  }

  function Accepted(limits: Limits, ops: seq<Op>): seq<Stamp> {
    if ops == [] then [] else Accept(Run(limits, ops[..|ops| - 1]), ops[|ops| - 1], Accepted(limits, ops[..|ops| - 1]))
  }

  function HandedOut(limits: Limits, ops: seq<Op>): seq<Stamp> {
    if ops == [] then [] else HandOut(Run(limits, ops[..|ops| - 1]), ops[|ops| - 1], HandedOut(limits, ops[..|ops| - 1]))
  }

  function OfPriority(queue: seq<Entry>, priority: nat): seq<Entry> {
    if queue == [] then [] else (if queue[0].priority == priority then [queue[0]] else []) + OfPriority(queue[1..], priority)
  }

  function Pick(log: seq<Stamp>, lane: LaneKey, priority: nat): seq<Entry> {
    if log == [] then [] else
    var last := log[|log| - 1];
    Pick(log[..|log| - 1], lane, priority) + if last.lane == lane && last.entry.priority == priority then [last.entry] else []
  }

  function QueueOf(s: Sched, lane: LaneKey): seq<Entry> {
    if lane in s.lanes then s.lanes[lane].queue else []
  }

  lemma {:induction false} NoneOfPriority(queue: seq<Entry>, priority: nat)
    requires forall e | e in queue :: e.priority != priority
    ensures OfPriority(queue, priority) == []
  {
    if queue != [] {
      NoneOfPriority(queue[1..], priority);
    }
  }

  /** The newest job of its priority goes behind all others of that priority. */
  lemma {:induction false} InsertIsLastOfPriority(queue: seq<Entry>, e: Entry, priority: nat)
    requires IsSorted(queue) && forall x | x in queue :: x.seqNo < e.seqNo
    ensures OfPriority(Insert(queue, e), priority) == OfPriority(queue, priority) + if e.priority == priority then [e] else []
  {
    if queue == [] || Before(e, queue[0]) {
      assert ([e] + queue)[1..] == queue;
      if queue != [] && e.priority == priority {
        forall x | x in queue ensures x.priority != priority {
          var i :| 0 <= i < |queue| && queue[i] == x;
        }
        NoneOfPriority(queue, priority);
      }
    } else {
      InsertIsLastOfPriority(queue[1..], e, priority);
      assert ([queue[0]] + Insert(queue[1..], e))[1..] == Insert(queue[1..], e);
    }
  }

  lemma EnqueueGrowsQueue(s: Sched, limits: Limits, data: JobData, lane: LaneKey)
    ensures QueueOf(Enqueue(s, limits, data), lane)
            == if data.id !in s.tracked && data.lane == lane then Insert(QueueOf(s, lane), EntryFor(s, data)) else QueueOf(s, lane)
  {
  }

  lemma NextShrinksQueue(s: Sched, lane: LaneKey)
    requires AllCanRun(s.lanes, s.ready) && s.ready != []
    ensures var key := s.ready[BestIndex(s.lanes, s.ready)];
            QueueOf(TryNext(s).0, lane) == if lane == key then QueueOf(s, lane)[1..] else QueueOf(s, lane)
  {
  }

  lemma DoneKeepsQueue(s: Sched, data: JobData, lane: LaneKey)
    ensures QueueOf(Done(s, data), lane) == QueueOf(s, lane)
  {
  }

  lemma PickLast(log: seq<Stamp>, x: Stamp, lane: LaneKey, priority: nat)
    ensures Pick(log + [x], lane, priority) == Pick(log, lane, priority) + if x.lane == lane && x.entry.priority == priority then [x.entry] else []
  {
    assert (log + [x])[..|log|] == log;
  }

  /**
    First in, first out: of the jobs of one lane and one priority, those handed out so far,
    followed by those that wait, are those accepted so far, in the order of their acceptance.
   */
  lemma {:induction false} EqualPriorityLeavesInOrder(limits: Limits, ops: seq<Op>, lane: LaneKey, priority: nat)
    requires LegalRun(limits, ops) && Discard !in ops
    ensures Pick(Accepted(limits, ops), lane, priority)
            == Pick(HandedOut(limits, ops), lane, priority) + OfPriority(QueueOf(Run(limits, ops), lane), priority)
  {
    if ops != [] {
      var init, op := ops[..|ops| - 1], ops[|ops| - 1];
      assert op in ops;
      EqualPriorityLeavesInOrder(limits, init, lane, priority);
      RunIsValid(limits, init);
      OpKeepsOrder(Run(limits, init), limits, op, Accepted(limits, init), HandedOut(limits, init), lane, priority);
    }
  }

  lemma OpKeepsOrder(s: Sched, limits: Limits, op: Op, accepted: seq<Stamp>, handed: seq<Stamp>, lane: LaneKey, priority: nat)
    requires Valid(s, limits) && !op.Discard?
    requires Pick(accepted, lane, priority) == Pick(handed, lane, priority) + OfPriority(QueueOf(s, lane), priority)
    ensures Pick(Accept(s, op, accepted), lane, priority)
            == Pick(HandOut(s, op, handed), lane, priority) + OfPriority(QueueOf(Apply(s, limits, op), lane), priority)
  {
    match op
    case Enq(data) => AcceptedInOrder(s, limits, data, accepted, lane, priority);
    case Next => NextKeepsOrder(s, limits, accepted, handed, lane, priority);
    case Fin(data) => DoneKeepsQueue(s, data, lane);
  }

  lemma NextKeepsOrder(s: Sched, limits: Limits, accepted: seq<Stamp>, handed: seq<Stamp>, lane: LaneKey, priority: nat)
    requires ReadyIsExact(s)
    requires Pick(accepted, lane, priority) == Pick(handed, lane, priority) + OfPriority(QueueOf(s, lane), priority)
    ensures Pick(accepted, lane, priority)
            == Pick(HandOut(s, Next, handed), lane, priority) + OfPriority(QueueOf(Apply(s, limits, Next), lane), priority)
  {
    ServedInOrder(s, handed, lane, priority);
    if s.ready != [] {
      var key := s.ready[BestIndex(s.lanes, s.ready)];
      var first := if key == lane && s.lanes[key].queue[0].priority == priority then [s.lanes[key].queue[0]] else [];
      Regroup(Pick(handed, lane, priority), first, OfPriority(QueueOf(TryNext(s).0, lane), priority));
    }
  }

  lemma AcceptedInOrder(s: Sched, limits: Limits, data: JobData, accepted: seq<Stamp>, lane: LaneKey, priority: nat)
    requires Valid(s, limits)
    ensures var accepted' := if data.id !in s.tracked then accepted + [Stamp(data.lane, EntryFor(s, data))] else accepted;
            var news := if data.id !in s.tracked && data.lane == lane && data.priority == priority then [EntryFor(s, data)] else [];
            && Pick(accepted', lane, priority) == Pick(accepted, lane, priority) + news
            && OfPriority(QueueOf(Enqueue(s, limits, data), lane), priority) == OfPriority(QueueOf(s, lane), priority) + news
  {
    EnqueueGrowsQueue(s, limits, data, lane);
    PickLast(accepted, Stamp(data.lane, EntryFor(s, data)), lane, priority);
    if data.id !in s.tracked && data.lane == lane {
      if lane in s.lanes { assert LaneIsExact(s, limits, lane); }
      assert forall x | x in QueueOf(s, lane) :: s.tracked[x.id].entry == x && x.seqNo <= s.lastSeq;
      InsertIsLastOfPriority(QueueOf(s, lane), EntryFor(s, data), priority);
    }
  }

  lemma ServedInOrder(s: Sched, handed: seq<Stamp>, lane: LaneKey, priority: nat)
    requires ReadyIsExact(s)
    ensures AllCanRun(s.lanes, s.ready)
    ensures s.ready != [] ==>
              var key := s.ready[BestIndex(s.lanes, s.ready)];
              var first := if key == lane && s.lanes[key].queue[0].priority == priority then [s.lanes[key].queue[0]] else [];
              && Pick(handed + [Stamp(key, s.lanes[key].queue[0])], lane, priority) == Pick(handed, lane, priority) + first
              && OfPriority(QueueOf(s, lane), priority) == first + OfPriority(QueueOf(TryNext(s).0, lane), priority)
  {
    ValidCanRun(s);
    if s.ready != [] {
      var key := s.ready[BestIndex(s.lanes, s.ready)];
      NextShrinksQueue(s, lane);
      PickLast(handed, Stamp(key, s.lanes[key].queue[0]), lane, priority);
    }
  }

  // ---------- turns ----------

  /** The number of lanes ahead of the lane in the ready list. */
  function Ahead(ready: seq<LaneKey>, lane: LaneKey): (n: nat)
    requires lane in ready
    ensures n < |ready| && ready[n] == lane && lane !in ready[..n]
  {
    if ready[0] == lane then 0 else
    assert ready == [ready[0]] + ready[1..];
    var n := Ahead(ready[1..], lane);
    assert ready[..n + 1] == [ready[0]] + ready[1..][..n];
    n + 1
  }

  lemma AheadIsIndex(ready: seq<LaneKey>, lane: LaneKey, i: nat)
    requires i < |ready| && ready[i] == lane && Distinct(ready)
    ensures Ahead(ready, lane) == i
  {
  }

  /** A runnable lane whose next job is of higher priority. */
  ghost predicate Outranked(s: Sched, lane: LaneKey)
    requires lane in s.lanes && CanRun(s.lanes[lane])
  {
    exists key :: key in s.lanes && CanRun(s.lanes[key]) && HeadPriority(s.lanes, key) > HeadPriority(s.lanes, lane)
  }

  /** The next call of `TryNext` serves the lane. */
  predicate Serves(s: Sched, lane: LaneKey) {
    AllCanRun(s.lanes, s.ready) && s.ready != [] && s.ready[BestIndex(s.lanes, s.ready)] == lane
  }

  lemma OthersKeepThePlace(s: Sched, limits: Limits, op: Op, lane: LaneKey)
    requires Valid(s, limits) && Legal(s, op) && lane in s.ready && (op.Enq? || op.Fin?)
    ensures var t := Apply(s, limits, op); lane in t.ready && Ahead(t.ready, lane) == Ahead(s.ready, lane)
  {
    var t := Apply(s, limits, op);
    var i := Ahead(s.ready, lane);
    OpKeepsValid(s, limits, op);
    assert t.ready == s.ready || t.ready == s.ready + [t.ready[|s.ready|]];
    AheadIsIndex(t.ready, lane, i);
  }

  lemma TurnComesCloser(s: Sched, limits: Limits, lane: LaneKey)
    requires Valid(s, limits) && lane in s.ready && lane in s.lanes && CanRun(s.lanes[lane]) && !Outranked(s, lane)
    ensures AllCanRun(s.lanes, s.ready)
    ensures Serves(s, lane) || (lane in TryNext(s).0.ready && Ahead(TryNext(s).0.ready, lane) == Ahead(s.ready, lane) - 1)
  {
    ValidCanRun(s);
    TryNextKeepsValid(s, limits);
    ReadyTurnComesCloser(s, lane);
  }

  lemma ReadyTurnComesCloser(s: Sched, lane: LaneKey)
    requires AllCanRun(s.lanes, s.ready) && lane in s.ready && !Outranked(s, lane) && Distinct(TryNext(s).0.ready)
    ensures Serves(s, lane) || (lane in TryNext(s).0.ready && Ahead(TryNext(s).0.ready, lane) == Ahead(s.ready, lane) - 1)
  {
    var best, i := BestIndex(s.lanes, s.ready), Ahead(s.ready, lane);
    var key := s.ready[best];
    assert HeadPriority(s.lanes, key) <= HeadPriority(s.lanes, lane);
    if key != lane {
      assert best < i;
      ServeMovesUp(s, best, i);
      AheadIsIndex(TryNext(s).0.ready, lane, i - 1);
    }
  }

  lemma ServeMovesUp(s: Sched, best: nat, i: nat)
    requires AllCanRun(s.lanes, s.ready) && best < i < |s.ready|
    ensures i - 1 < |Serve(s, best).ready| && Serve(s, best).ready[i - 1] == s.ready[i]
  {
    assert (s.ready[..best] + s.ready[best + 1..])[i - 1] == s.ready[i];
  }

  /** Legal calls other than a stop, in which the lane is never outranked when its turn is decided. */
  ghost predicate FairRun(s: Sched, limits: Limits, ops: seq<Op>, lane: LaneKey)
    decreases |ops|
  {
    ops == [] ||
    (&& !ops[0].Discard? && Legal(s, ops[0])
     && (ops[0].Next? && lane in s.lanes && CanRun(s.lanes[lane]) ==> !Outranked(s, lane))
     && FairRun(Apply(s, limits, ops[0]), limits, ops[1..], lane))
  }

  function Turns(ops: seq<Op>): nat {
    if ops == [] then 0 else (if ops[0].Next? then 1 else 0) + Turns(ops[1..])
  }

  ghost predicate ServedWithin(s: Sched, limits: Limits, ops: seq<Op>, lane: LaneKey)
    decreases |ops|
  {
    ops != [] && ((ops[0].Next? && Serves(s, lane)) || ServedWithin(Apply(s, limits, ops[0]), limits, ops[1..], lane))
  }

  /**
    A lane that can run and is not outranked is served within as many calls of `TryNext` as
    there are lanes ahead of it, plus one, whatever is queued or released in between.
   */
  lemma {:induction false} BypassIsBounded(s: Sched, limits: Limits, ops: seq<Op>, lane: LaneKey)
    requires Valid(s, limits) && lane in s.ready && FairRun(s, limits, ops, lane)
    requires Turns(ops) > Ahead(s.ready, lane)
    ensures ServedWithin(s, limits, ops, lane)
    decreases |ops|
  {
    var t := Apply(s, limits, ops[0]);
    OpKeepsValid(s, limits, ops[0]);
    if ops[0].Next? {
      TurnComesCloser(s, limits, lane);
      if !Serves(s, lane) {
        BypassIsBounded(t, limits, ops[1..], lane);
      }
    } else {
      OthersKeepThePlace(s, limits, ops[0], lane);
      BypassIsBounded(t, limits, ops[1..], lane);
    }
  }

  // ---------- skipped work ----------

  /** `IsHeld` holds exactly when queueing the copy would change nothing. */
  lemma HeldIffEnqueueIsIdle(s: Sched, limits: Limits, data: JobData)
    ensures IsHeld(s, data) <==> Enqueue(s, limits, data) == s
  {
    if data.id !in s.tracked {
      assert data.id in Enqueue(s, limits, data).tracked;
    } else if Outdated(s, data) {
      assert Enqueue(s, limits, data).tracked[data.id].data == data;
    }
  }

  lemma EnqueuedIsHeld(s: Sched, limits: Limits, data: JobData)
    ensures IsHeld(Enqueue(s, limits, data), data)
  {
  }

  /**
    After an enqueue the job is tracked with the freshest copy there was, unless it is running:
    a new job waits with this copy, a waiting one keeps its place in the queue and takes the copy
    with the higher count.
   */
  lemma FreshestCopyIsHeld(s: Sched, limits: Limits, data: JobData)
    ensures var t := Enqueue(s, limits, data);
            && data.id in t.tracked && (forall id | id in s.tracked && id != data.id :: id in t.tracked && t.tracked[id] == s.tracked[id])
            && var held := t.tracked[data.id];
               if data.id !in s.tracked then held.data == data && !held.running && held.entry.seqNo == s.lastSeq + 1
               else
                 && held.entry == s.tracked[data.id].entry && held.running == s.tracked[data.id].running
                 && held.data == if !held.running && data.retries > s.tracked[data.id].data.retries then data else s.tracked[data.id].data
  {
  }

  /** Held means running, or waiting with a count at least as high. */
  lemma HeldIff(s: Sched, data: JobData)
    ensures IsHeld(s, data) <==> data.id in s.tracked && (s.tracked[data.id].running || data.retries <= s.tracked[data.id].data.retries)
  {
  }

  /** The count of a waiting copy never falls while it waits. */
  lemma WaitingCountNeverFalls(s: Sched, limits: Limits, op: Op, id: JobId)
    requires Valid(s, limits) && Legal(s, op) && id in s.tracked && !s.tracked[id].running
    ensures var t := Apply(s, limits, op);
            id in t.tracked ==> t.tracked[id].data.retries >= s.tracked[id].data.retries && t.tracked[id].entry == s.tracked[id].entry
  {
  }

  function Pass(s: Sched, limits: Limits, jobs: seq<JobData>): Sched
    decreases |jobs|
  {
    if jobs == [] then s else Pass(Enqueue(s, limits, jobs[0]), limits, jobs[1..])
  }

  function SkippingPass(s: Sched, limits: Limits, jobs: seq<JobData>): Sched
    decreases |jobs|
  {
    if jobs == [] then s else SkippingPass(if IsHeld(s, jobs[0]) then s else Enqueue(s, limits, jobs[0]), limits, jobs[1..])
  }

  /** A retry pass that skips the held jobs leaves the scheduler as one that does not. */
  lemma {:induction false} SkippingIsARefinement(s: Sched, limits: Limits, jobs: seq<JobData>)
    ensures SkippingPass(s, limits, jobs) == Pass(s, limits, jobs)
    decreases |jobs|
  {
    if jobs != [] {
      HeldIffEnqueueIsIdle(s, limits, jobs[0]);
      SkippingIsARefinement(Enqueue(s, limits, jobs[0]), limits, jobs[1..]);
    }
  }

  lemma {:induction false} PassKeepsHeld(s: Sched, limits: Limits, jobs: seq<JobData>, data: JobData)
    requires IsHeld(s, data)
    ensures IsHeld(Pass(s, limits, jobs), data)
    decreases |jobs|
  {
    if jobs != [] {
      PassKeepsHeld(Enqueue(s, limits, jobs[0]), limits, jobs[1..], data);
    }
  }

  lemma {:induction false} IdlePass(s: Sched, limits: Limits, jobs: seq<JobData>)
    requires forall data | data in jobs :: IsHeld(s, data)
    ensures Pass(s, limits, jobs) == s
    decreases |jobs|
  {
    if jobs != [] {
      HeldIffEnqueueIsIdle(s, limits, jobs[0]);
      IdlePass(s, limits, jobs[1..]);
    }
  }

  lemma {:induction false} PassHoldsItsJobs(s: Sched, limits: Limits, jobs: seq<JobData>, data: JobData)
    requires data in jobs
    ensures IsHeld(Pass(s, limits, jobs), data)
    decreases |jobs|
  {
    if data == jobs[0] {
      EnqueuedIsHeld(s, limits, data);
      PassKeepsHeld(Enqueue(s, limits, data), limits, jobs[1..], data);
    } else {
      PassHoldsItsJobs(Enqueue(s, limits, jobs[0]), limits, jobs[1..], data);
    }
  }

  /** Repeating a pass over the same copies changes nothing: no job enters its lane twice. */
  lemma PassIsIdempotent(s: Sched, limits: Limits, jobs: seq<JobData>)
    ensures Pass(Pass(s, limits, jobs), limits, jobs) == Pass(s, limits, jobs)
  {
    forall data | data in jobs ensures IsHeld(Pass(s, limits, jobs), data) {
      PassHoldsItsJobs(s, limits, jobs, data);
    }
    IdlePass(Pass(s, limits, jobs), limits, jobs);
  }
}
