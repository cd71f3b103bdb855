/**
  What `Stop` promises when it returns in time: every job handed out has been released, exactly
  once, and the scheduler is empty. It holds of all runs from a state exactly when every
  worker goroutine is up in that state; otherwise there is a run that escapes the poll.
 */
module Shutdown {
  import opened Types
  import opened JobQueue
  import opened Lanes
  import opened Handoff

  /** Nothing is held, no lane is left, and every job handed out was released exactly once. */
  ghost predicate AllReleased(d: Dispatcher) {
    d.sched.tracked == map[] && d.sched.lanes == map[] && d.handed == d.released && forall n | n in d.handed :: d.handed[n] == 1
  }

  lemma LaneHasAJob(s: Sched, limits: Limits, key: LaneKey)
    requires HeldIsExact(s, limits) && key in s.lanes
    ensures exists id :: id in s.tracked && s.tracked[id].data.lane == key
  {
    assert LaneIsExact(s, limits, key);
    if s.lanes[key].queue != [] {
      assert s.lanes[key].queue[0] in s.lanes[key].queue;
      assert s.lanes[key].queue[0].id in s.tracked;
    } else {
      var id :| id in Running(s, key);
      assert id in s.tracked;
    }
  }

  lemma LanesHaveJobs(s: Sched, limits: Limits)
    requires HeldIsExact(s, limits)
    ensures forall key | key in s.lanes :: exists id :: id in s.tracked && s.tracked[id].data.lane == key
  {
    forall key | key in s.lanes ensures exists id :: id in s.tracked && s.tracked[id].data.lane == key {
      LaneHasAJob(s, limits, key);
    }
  }

  lemma NothingHeldIsReleased(d: Dispatcher, limits: Limits)
    requires Valid(d.sched, limits) && TicketsAreExact(d) && d.sched.tracked == map[]
    ensures AllReleased(d)
  {
    LanesHaveJobs(d.sched, limits);
    assert forall n | n in d.handed :: n in d.released;
    forall n ensures d.handed[n] == d.released[n] {
      assert n in d.handed ==> d.handed[n] == 1;
      assert d.released[n] <= d.handed[n];
    }
  }

  lemma QuietHoldsNothing(d: Dispatcher)
    requires PlacesAreExact(d) && PhasesAreInOrder(d) && PollIsSound(d) && d.stopper.Returned? && d.allStarted
    ensures d.sched.tracked == map[]
  {
    assert forall p :: Holds(d, p) == None;
    assert forall id | id in d.sched.tracked :: id in RunningJobs(d.sched);
  }

  /** If every worker goroutine was up when `Stop` was called, then `Stop` returns in time only when all is released. */
  lemma StopReleasesEverything(n: nat, limits: Limits, steps: seq<Step>)
    requires Exec(Start(n), limits, steps).stopper.Returned? && Exec(Start(n), limits, steps).allStarted
    ensures AllReleased(Exec(Start(n), limits, steps))
  {
    StartIsSound(n, limits);
    RunKeepsInv(Start(n), limits, steps);
    QuietHoldsNothing(Exec(Start(n), limits, steps));
    NothingHeldIsReleased(Exec(Start(n), limits, steps), limits);
  }

  // ---------- runs in pieces ----------

  lemma ExecStep(d: Dispatcher, limits: Limits, step: Step, rest: seq<Step>)
    ensures Exec(d, limits, [step] + rest) == Exec(Do(d, limits, step), limits, rest)
  {
    assert ([step] + rest)[1..] == rest;
  }

  lemma {:induction false} ExecConcat(d: Dispatcher, limits: Limits, a: seq<Step>, b: seq<Step>)
    ensures Exec(d, limits, a + b) == Exec(Exec(d, limits, a), limits, b)
    decreases |a|
  {
    if a == [] {
      assert a + b == b;
    } else {
      assert (a + b)[1..] == a[1..] + b;
      ExecConcat(Do(d, limits, a[0]), limits, a[1..], b);
    }
  }

  // ---------- the workers that are up can all be retired ----------

  predicate AtRest(w: Worker) {
    w.pc.NotStarted? || w.pc.Exited?
  }

  /** Only the workers, the pool and the jobs have changed. */
  predicate SamePhase(d: Dispatcher, t: Dispatcher) {
    && t.closer == d.closer && t.stopper == d.stopper && t.looping == d.looping && t.stopped == d.stopped
    && |t.workers| == |d.workers|
  }

  predicate OnlyWorker(d: Dispatcher, t: Dispatcher, j: nat) {
    SamePhase(d, t) && forall k | 0 <= k < |d.workers| && k != j :: t.workers[k] == d.workers[k]
  }

  /** The steps that bring a worker with a quit signal to its exit. */
  function Retirement(w: Worker, j: nat): seq<Step> {
    match w.pc
    case Delivering(_) => [WorkerFinishes(j), WorkerRegisters(j), WorkerQuits(j)]
    case Registering => [WorkerRegisters(j), WorkerQuits(j)]
    case Selecting => [WorkerQuits(j)]
    case _ => []
  }

  lemma Quits(d: Dispatcher, limits: Limits, j: nat)
    requires j < |d.workers| && d.workers[j].pc.Selecting? && d.workers[j].quit
    ensures var t := Exec(d, limits, [WorkerQuits(j)]); OnlyWorker(d, t, j) && t.workers[j].pc.Exited?
  {
    ExecStep(d, limits, WorkerQuits(j), []);
  }

  lemma RegistersAndQuits(d: Dispatcher, limits: Limits, j: nat)
    requires TokensAreExact(d) && j < |d.workers| && d.workers[j].pc.Registering? && d.workers[j].quit
    ensures var t := Exec(d, limits, [WorkerRegisters(j), WorkerQuits(j)]); OnlyWorker(d, t, j) && t.workers[j].pc.Exited?
  {
    PoolHasRoom(d, j);
    ExecStep(d, limits, WorkerRegisters(j), [WorkerQuits(j)]);
    Quits(Do(d, limits, WorkerRegisters(j)), limits, j);
  }

  lemma FinishesAndQuits(d: Dispatcher, limits: Limits, j: nat)
    requires TokensAreExact(d) && j < |d.workers| && d.workers[j].pc.Delivering? && d.workers[j].quit
    ensures var t := Exec(d, limits, [WorkerFinishes(j), WorkerRegisters(j), WorkerQuits(j)]); OnlyWorker(d, t, j) && t.workers[j].pc.Exited?
  {
    ExecStep(d, limits, WorkerFinishes(j), [WorkerRegisters(j), WorkerQuits(j)]);
    WorkerStepKeepsTokens(d, WorkerFinishes(j));
    RegistersAndQuits(Do(d, limits, WorkerFinishes(j)), limits, j);
  }

  lemma Retires(d: Dispatcher, limits: Limits, j: nat)
    requires TokensAreExact(d) && j < |d.workers| && d.workers[j].quit
    ensures var t := Exec(d, limits, Retirement(d.workers[j], j));
            OnlyWorker(d, t, j) && AtRest(t.workers[j]) && (d.workers[j].pc.NotStarted? ==> t.workers[j].pc.NotStarted?)
  {
    match d.workers[j].pc
    case Delivering(_) => FinishesAndQuits(d, limits, j);
    case Registering => RegistersAndQuits(d, limits, j);
    case Selecting => Quits(d, limits, j);
    case _ =>
  }

  lemma QuitIsSent(d: Dispatcher, limits: Limits, j: nat)
    requires !d.stopper.Idle? && j < |d.workers|
    ensures var t := Do(d, limits, SendQuit(j)); OnlyWorker(d, t, j) && t.workers[j] == d.workers[j].(quit := true)
  {
  }

  lemma {:induction false} RetireAll(d: Dispatcher, limits: Limits, n: nat) returns (steps: seq<Step>)
    requires Inv(d, limits) && !d.stopper.Idle? && n <= |d.workers|
    ensures var t := Exec(d, limits, steps);
            && SamePhase(d, t)
            && (forall j | 0 <= j < n :: AtRest(t.workers[j]))
            && (forall j | n <= j < |d.workers| :: t.workers[j] == d.workers[j])
            && (forall j | 0 <= j < |d.workers| && d.workers[j].pc.NotStarted? :: t.workers[j].pc.NotStarted?)
  {
    if n == 0 { return []; }
    var before := RetireAll(d, limits, n - 1);
    var u := Exec(d, limits, before);
    RunKeepsInv(d, limits, before);
    var v := Do(u, limits, SendQuit(n - 1));
    QuitIsSent(u, limits, n - 1);
    StepKeepsInv(u, limits, SendQuit(n - 1));
    Retires(v, limits, n - 1);
    steps := before + ([SendQuit(n - 1)] + Retirement(v.workers[n - 1], n - 1));
    ExecConcat(d, limits, before, [SendQuit(n - 1)] + Retirement(v.workers[n - 1], n - 1));
    ExecStep(u, limits, SendQuit(n - 1), Retirement(v.workers[n - 1], n - 1));
  }

  // ---------- a poll that sees every worker at rest ----------

  function Repeat(step: Step, n: nat): seq<Step> {
    seq(n, _ => step)
  }

  lemma ExecRepeat(d: Dispatcher, limits: Limits, step: Step, n: nat)
    requires n > 0
    ensures Exec(d, limits, Repeat(step, n)) == Exec(Do(d, limits, step), limits, Repeat(step, n - 1))
  {
    assert Repeat(step, n) == [step] + Repeat(step, n - 1);
    ExecStep(d, limits, step, Repeat(step, n - 1));
  }

  lemma {:induction false} PollPasses(d: Dispatcher, limits: Limits, i: nat)
    requires PollIsSound(d) && i <= |d.workers| && d.stopper == Polling(i, false)
    requires forall j | 0 <= j < |d.workers| :: AtRest(d.workers[j])
    ensures Exec(d, limits, Repeat(StopperMoves, |d.workers| - i + 1)) == d.(stopper := AwaitGroup)
    decreases |d.workers| - i
  {
    ExecRepeat(d, limits, StopperMoves, |d.workers| - i + 1);
    if i < |d.workers| {
      var t := d.(stopper := Polling(i + 1, false));
      assert Do(d, limits, StopperMoves) == t;
      PollPasses(t, limits, i + 1);
    }
  }

  // ---------- a job reaches the late worker ----------

  lemma {:induction false} FreshId(ids: set<JobId>) returns (n: nat)
    ensures forall id | id in ids :: id < n
    decreases |ids|
  {
    n := 0;
    if ids != {} {
      var id: JobId :| id in ids;
      var m := FreshId(ids - {id});
      n := if m > id then m else id + 1;
      assert forall other | other in ids :: other == id || other in ids - {id};
    }
  }

  lemma {:induction false} FreshLength(keys: set<LaneKey>) returns (n: nat)
    ensures forall key | key in keys :: |key.channel| < n
    decreases |keys|
  {
    n := 0;
    if keys != {} {
      var key :| key in keys;
      var m := FreshLength(keys - {key});
      n := if m > |key.channel| then m else |key.channel| + 1;
    }
  }

  lemma FreshJob(s: Sched) returns (data: JobData)
    ensures data.id !in s.tracked && data.lane !in s.lanes
  {
    var id := FreshId(s.tracked.Keys);
    var n := FreshLength(s.lanes.Keys);
    data := JobData(id, LaneKey(seq(n, _ => 'a'), ""), 0, 0);
    assert |data.lane.channel| == n;
  }

  lemma FreshJobCanRun(s: Sched, limits: Limits, data: JobData)
    requires data.id !in s.tracked && data.lane !in s.lanes
    ensures var t := Enqueue(s, limits, data); data.lane in t.lanes && CanRun(t.lanes[data.lane])
  {
  }

  /** The dispatch loop still runs, the poll is over, and worker `i` is up and its channel offered. */
  ghost predicate Escaping(d: Dispatcher, limits: Limits, i: nat) {
    && Inv(d, limits) && d.closer.StopLoop? && d.stopper.AwaitGroup? && i < |d.workers| && d.workers[i].pc.Selecting?
    && (i in d.pool || (HasWorker(d.assigner) && d.assigner.w == i))
  }

  function Distance(d: Dispatcher): nat {
    4 * |d.pool| + match d.assigner case Waiting(_) => 3 case Trying(_) => 2 case Sending(_, _) => 1 case _ => 0
  }

  lemma TakingHelps(d: Dispatcher, limits: Limits, i: nat)
    requires Escaping(d, limits, i) && d.assigner.AwaitWorker?
    ensures var t := Do(d, limits, AssignerTakesWorker); Escaping(t, limits, i) && Distance(t) < Distance(d)
  {
    StepKeepsInv(d, limits, AssignerTakesWorker);
    assert d.pool == [d.pool[0]] + d.pool[1..];
  }

  lemma SendingHelps(d: Dispatcher, limits: Limits, i: nat)
    requires Escaping(d, limits, i) && d.assigner.Sending? && d.assigner.w != i
    ensures var t := Do(d, limits, AssignerSends); Escaping(t, limits, i) && Distance(t) < Distance(d)
  {
    StepKeepsInv(d, limits, AssignerSends);
  }

  lemma EnqueueKeepsEscaping(d: Dispatcher, limits: Limits, i: nat, data: JobData)
    requires Escaping(d, limits, i) && data.id !in d.sched.tracked
    ensures var t := Do(d, limits, EnqueueJob(data));
            && Escaping(t, limits, i) && t.assigner == d.assigner && t.pool == d.pool && t.signallers > 0
            && t.sched == Enqueue(d.sched, limits, data)
  {
    StepKeepsInv(d, limits, EnqueueJob(data));
  }

  lemma ExecTwo(d: Dispatcher, limits: Limits, a: Step, b: Step)
    ensures Exec(d, limits, [a, b]) == Do(Do(d, limits, a), limits, b)
  {
    ExecStep(d, limits, a, [b]);
    ExecStep(Do(d, limits, a), limits, b, []);
    assert [a] + [b] == [a, b] && [b] + [] == [b];
  }

  /** A step that queues a job its lane can run. */
  lemma QueueStep(d: Dispatcher, limits: Limits, i: nat) returns (step: Step, t: Dispatcher, key: LaneKey)
    requires Escaping(d, limits, i)
    ensures t == Do(d, limits, step) && Escaping(t, limits, i) && t.assigner == d.assigner && t.pool == d.pool && t.signallers > 0
    ensures key in t.sched.lanes && CanRun(t.sched.lanes[key])
  {
    var data := FreshJob(d.sched);
    step, key := EnqueueJob(data), data.lane;
    t := Do(d, limits, step);
    EnqueueKeepsEscaping(d, limits, i, data);
    FreshJobCanRun(d.sched, limits, data);
  }

  lemma ServedIsSending(d: Dispatcher, limits: Limits, key: LaneKey)
    requires Valid(d.sched, limits) && d.assigner.Trying? && key in d.sched.lanes && CanRun(d.sched.lanes[key])
    ensures DoTry(d).assigner.Sending?
  {
    NextRunsOne(d.sched, limits);
  }

  lemma TryStep(d: Dispatcher, limits: Limits, i: nat, key: LaneKey) returns (step: Step, t: Dispatcher)
    requires Escaping(d, limits, i) && d.assigner.Trying? && key in d.sched.lanes && CanRun(d.sched.lanes[key])
    ensures t == Do(d, limits, step) && Escaping(t, limits, i) && t.assigner.Sending? && t.pool == d.pool
  {
    step, t := AssignerTries, DoTry(d);
    StepKeepsInv(d, limits, AssignerTries);
    ServedIsSending(d, limits, key);
  }

  lemma TryingHelps(d: Dispatcher, limits: Limits, i: nat) returns (steps: seq<Step>)
    requires Escaping(d, limits, i) && d.assigner.Trying?
    ensures var t := Exec(d, limits, steps); Escaping(t, limits, i) && Distance(t) < Distance(d)
  {
    var a, u, key := QueueStep(d, limits, i);
    var b, v := TryStep(u, limits, i, key);
    steps := [a, b];
    ExecTwo(d, limits, a, b);
  }

  lemma SignalStep(d: Dispatcher, limits: Limits, i: nat) returns (step: Step, t: Dispatcher)
    requires Escaping(d, limits, i) && d.signallers > 0
    ensures t == Do(d, limits, step) && Escaping(t, limits, i) && t.assigner == d.assigner && t.pool == d.pool && t.wake
  {
    step, t := Signal, Do(d, limits, Signal);
    StepKeepsInv(d, limits, Signal);
  }

  lemma WakeStep(d: Dispatcher, limits: Limits, i: nat) returns (step: Step, t: Dispatcher)
    requires Escaping(d, limits, i) && d.assigner.Waiting? && d.wake
    ensures t == Do(d, limits, step) && Escaping(t, limits, i) && t.assigner.Trying? && t.pool == d.pool
  {
    step, t := AssignerWakes, Do(d, limits, AssignerWakes);
    StepKeepsInv(d, limits, AssignerWakes);
  }

  lemma WaitingHelps(d: Dispatcher, limits: Limits, i: nat) returns (steps: seq<Step>)
    requires Escaping(d, limits, i) && d.assigner.Waiting?
    ensures var t := Exec(d, limits, steps); Escaping(t, limits, i) && Distance(t) < Distance(d)
  {
    var a, u, key := QueueStep(d, limits, i);
    var b, v := SignalStep(u, limits, i);
    var c, w := WakeStep(v, limits, i);
    steps := [a] + [b, c];
    ExecTwo(u, limits, b, c);
    ExecStep(d, limits, a, [b, c]);
  }

  /** The late worker has a job that nobody will wait for. */
  ghost predicate Escaped(d: Dispatcher, limits: Limits, i: nat) {
    && Inv(d, limits) && d.closer.StopLoop? && d.stopper.AwaitGroup? && d.assigner.AwaitWorker?
    && i < |d.workers| && d.workers[i].pc.Delivering?
  }

  lemma LastSend(d: Dispatcher, limits: Limits, i: nat) returns (steps: seq<Step>)
    requires Escaping(d, limits, i) && d.assigner.Sending? && d.assigner.w == i
    ensures Escaped(Exec(d, limits, steps), limits, i)
  {
    steps := [AssignerSends, WorkerReads(i)];
    StepKeepsInv(d, limits, AssignerSends);
    StepKeepsInv(Do(d, limits, AssignerSends), limits, WorkerReads(i));
    ExecTwo(d, limits, AssignerSends, WorkerReads(i));
  }

  lemma {:induction false} LateWorkerGetsAJob(d: Dispatcher, limits: Limits, i: nat) returns (steps: seq<Step>)
    requires Escaping(d, limits, i)
    ensures Escaped(Exec(d, limits, steps), limits, i)
    decreases Distance(d)
  {
    if d.assigner.Sending? && d.assigner.w == i {
      steps := LastSend(d, limits, i);
      return;
    }
    var first: seq<Step>;
    match d.assigner {
      case AwaitWorker =>
        TakingHelps(d, limits, i);
        first := [AssignerTakesWorker] + [];
        ExecStep(d, limits, AssignerTakesWorker, []);
      case Sending(_, _) =>
        SendingHelps(d, limits, i);
        first := [AssignerSends] + [];
        ExecStep(d, limits, AssignerSends, []);
      case Trying(_) => first := TryingHelps(d, limits, i);
      case Waiting(_) => first := WaitingHelps(d, limits, i);
    }
    var rest := LateWorkerGetsAJob(Exec(d, limits, first), limits, i);
    steps := first + rest;
    ExecConcat(d, limits, first, rest);
  }

  // ---------- the rest of `Stop` passes the late worker by ----------

  const CLOSING: seq<Step> := [CloserMoves, CloserMoves] + [CloserMoves, AssignerSeesStop]

  lemma Closes(d: Dispatcher, limits: Limits)
    requires PhasesAreInOrder(d) && d.closer.StopLoop? && d.assigner.AwaitWorker?
    ensures var t := Exec(d, limits, CLOSING);
            t.closer.CloserDone? && t.assigner.AssignerDone? && t.stopper == d.stopper && t.workers == d.workers
  {
    var u := d.(looping := false, stopped := true, closer := Discarding);
    ExecTwo(d, limits, CloserMoves, CloserMoves);
    assert Do(d, limits, CloserMoves) == d.(looping := false, closer := CloseScheduler);
    ExecTwo(u, limits, CloserMoves, AssignerSeesStop);
    ExecConcat(d, limits, [CloserMoves, CloserMoves], [CloserMoves, AssignerSeesStop]);
  }

  lemma {:induction false} ReleasingPasses(d: Dispatcher, limits: Limits, k: nat)
    requires k <= |d.workers| && d.stopper == Releasing(k)
    ensures var t := Exec(d, limits, Repeat(StopperMoves, |d.workers| - k + 1));
            t.stopper.Returned? && |t.workers| == |d.workers| && forall i | 0 <= i < |d.workers| :: t.workers[i].pc == d.workers[i].pc
    decreases |d.workers| - k
  {
    ExecRepeat(d, limits, StopperMoves, |d.workers| - k + 1);
    if k < |d.workers| {
      ReleasingMoves(d, k);
      ReleasingPasses(Do(d, limits, StopperMoves), limits, k + 1);
    }
  }

  lemma ReleasingMoves(d: Dispatcher, k: nat)
    requires k < |d.workers| && d.stopper == Releasing(k)
    ensures var t := DoStopper(d);
            t.stopper == Releasing(k + 1) && |t.workers| == |d.workers| && forall i | 0 <= i < |d.workers| :: t.workers[i].pc == d.workers[i].pc
  {
  }

  lemma StopReturns(d: Dispatcher, limits: Limits, i: nat) returns (steps: seq<Step>)
    requires Escaped(d, limits, i)
    ensures var t := Exec(d, limits, steps); t.stopper.Returned? && i < |t.workers| && t.workers[i].pc.Delivering?
  {
    Closes(d, limits);
    var u := Exec(d, limits, CLOSING);
    var v := u.(stopper := Releasing(0));
    var last := Repeat(StopperMoves, |d.workers| + 1);
    assert Do(u, limits, StopperMoves) == u.(stopper := AwaitAssigner);
    ExecTwo(u, limits, StopperMoves, StopperMoves);
    ReleasingPasses(v, limits, 0);
    steps := CLOSING + ([StopperMoves, StopperMoves] + last);
    ExecConcat(u, limits, [StopperMoves, StopperMoves], last);
    ExecConcat(d, limits, CLOSING, [StopperMoves, StopperMoves] + last);
  }

  // ---------- the whole escape ----------

  lemma LateStart(d: Dispatcher, limits: Limits, i: nat)
    requires Inv(d, limits) && d.closer.StopLoop? && d.stopper.AwaitGroup? && i < |d.workers| && d.workers[i].pc.NotStarted?
    ensures Escaping(Exec(d, limits, [WorkerStarts(i), WorkerRegisters(i)]), limits, i)
  {
    var u := Do(d, limits, WorkerStarts(i));
    StepKeepsInv(d, limits, WorkerStarts(i));
    PoolHasRoom(u, i);
    StepKeepsInv(u, limits, WorkerRegisters(i));
    ExecTwo(d, limits, WorkerStarts(i), WorkerRegisters(i));
  }

  /** A poll that finds every worker at rest ends, and changes nothing else. */
  lemma RestingPollEnds(d: Dispatcher, limits: Limits) returns (steps: seq<Step>)
    requires PollIsSound(d) && d.stopper == Polling(0, false) && forall j | 0 <= j < |d.workers| :: AtRest(d.workers[j])
    ensures Exec(d, limits, steps) == d.(stopper := AwaitGroup)
  {
    PollPasses(d, limits, 0);
    steps := Repeat(StopperMoves, |d.workers| + 1);
  }

  lemma WorkersRetire(d: Dispatcher, limits: Limits) returns (steps: seq<Step>, t: Dispatcher)
    requires Inv(d, limits) && d.stopper == Polling(0, false)
    ensures t == Exec(d, limits, steps) && SamePhase(d, t) && PollIsSound(t)
    ensures forall j | 0 <= j < |t.workers| :: AtRest(t.workers[j])
    ensures forall j | 0 <= j < |d.workers| && d.workers[j].pc.NotStarted? :: t.workers[j].pc.NotStarted?
  {
    steps := RetireAll(d, limits, |d.workers|);
    t := Exec(d, limits, steps);
    RunKeepsInv(d, limits, steps);
  }

  /** The workers that are up can be retired and the poll ended; those not yet up stay so. */
  lemma PollEnds(d: Dispatcher, limits: Limits) returns (steps: seq<Step>)
    requires Inv(d, limits) && d.closer.StopLoop? && d.stopper == Polling(0, false)
    ensures var t := Exec(d, limits, steps);
            && Inv(t, limits) && t.closer.StopLoop? && t.stopper.AwaitGroup? && |t.workers| == |d.workers|
            && forall i | 0 <= i < |d.workers| && d.workers[i].pc.NotStarted? :: t.workers[i].pc.NotStarted?
  {
    var retire, u := WorkersRetire(d, limits);
    var poll := RestingPollEnds(u, limits);
    steps := retire + poll;
    ExecConcat(d, limits, retire, poll);
    RunKeepsInv(d, limits, steps);
  }

  lemma Escape(d: Dispatcher, limits: Limits, i: nat) returns (steps: seq<Step>)
    requires Inv(d, limits) && d.closer.StopLoop? && d.stopper == Polling(0, false) && i < |d.workers| && d.workers[i].pc.NotStarted?
    ensures var t := Exec(d, limits, steps); t.stopper.Returned? && i < |t.workers| && t.workers[i].pc.Delivering?
  {
    var a := PollEnds(d, limits);
    var t := Exec(d, limits, a);
    LateStart(t, limits, i);
    var b := [WorkerStarts(i), WorkerRegisters(i)];
    var u := Exec(t, limits, b);
    var c := LateWorkerGetsAJob(u, limits, i);
    var v := Exec(u, limits, c);
    var e := StopReturns(v, limits, i);
    steps := a + (b + (c + e));
    ExecConcat(u, limits, c, e);
    ExecConcat(t, limits, b, c + e);
    ExecConcat(d, limits, a, b + (c + e));
  }

  lemma DeliveringIsHeld(d: Dispatcher, limits: Limits, i: nat)
    requires PlacesAreExact(d) && i < |d.workers| && d.workers[i].pc.Delivering?
    ensures !AllReleased(d)
  {
    assert Holds(d, AtWorker(i)).value.id in RunningJobs(d.sched);
  }

  lemma {:induction false} AllStartedStays(d: Dispatcher, limits: Limits, steps: seq<Step>)
    requires !d.stopper.Idle?
    ensures Exec(d, limits, steps).allStarted == d.allStarted
    decreases |steps|
  {
    if steps != [] {
      StopIsCalledOnce(d, limits, steps[0]);
      AllStartedStays(Do(d, limits, steps[0]), limits, steps[1..]);
    }
  }

  lemma StopperGoesOn(d: Dispatcher)
    requires !d.stopper.Idle?
    ensures !DoStopper(d).stopper.Idle? && DoStopper(d).allStarted == d.allStarted
  {
  }

  lemma WorkerLeavesStop(d: Dispatcher, step: Step)
    requires IsWorkerStep(step)
    ensures DoWorker(d, step).stopper == d.stopper && DoWorker(d, step).allStarted == d.allStarted
  {
  }

  lemma StopIsCalledOnce(d: Dispatcher, limits: Limits, step: Step)
    requires !d.stopper.Idle?
    ensures !Do(d, limits, step).stopper.Idle? && Do(d, limits, step).allStarted == d.allStarted
  {
    if step.StopperMoves? {
      StopperGoesOn(d);
    } else if IsWorkerStep(step) {
      WorkerLeavesStop(d, step);
    }
  }

  /** Every run of `Stop` from here that returns in time has released everything. */
  ghost predicate StopIsSafe(d: Dispatcher, limits: Limits) {
    forall steps :: Exec(Do(d, limits, CallStop), limits, steps).stopper.Returned?
                    ==> AllReleased(Exec(Do(d, limits, CallStop), limits, steps))
  }

  /**
    In a reachable state where `Stop` has not been called, calling it is safe exactly when every
    worker goroutine is up.
   */
  lemma StopIsSafeIffEveryWorkerStarted(n: nat, limits: Limits, before: seq<Step>)
    requires Exec(Start(n), limits, before).stopper.Idle?
    ensures StopIsSafe(Exec(Start(n), limits, before), limits) <==> EveryWorkerStarted(Exec(Start(n), limits, before))
  {
    StartIsSound(n, limits);
    RunKeepsInv(Start(n), limits, before);
    var d := Exec(Start(n), limits, before);
    if EveryWorkerStarted(d) {
      StartedIsSafe(d, limits);
    } else {
      var i: nat :| i < |d.workers| && d.workers[i].pc.NotStarted?;
      LateStartIsUnsafe(d, limits, i);
    }
  }

  lemma StartedIsSafe(d: Dispatcher, limits: Limits)
    requires Inv(d, limits) && d.stopper.Idle? && EveryWorkerStarted(d)
    ensures StopIsSafe(d, limits)
  {
    var u := Do(d, limits, CallStop);
    StepKeepsInv(d, limits, CallStop);
    forall steps | Exec(u, limits, steps).stopper.Returned? ensures AllReleased(Exec(u, limits, steps)) {
      RunKeepsInv(u, limits, steps);
      AllStartedStays(u, limits, steps);
      QuietHoldsNothing(Exec(u, limits, steps));
      NothingHeldIsReleased(Exec(u, limits, steps), limits);
    }
  }

  lemma LateStartIsUnsafe(d: Dispatcher, limits: Limits, i: nat)
    requires Inv(d, limits) && d.stopper.Idle? && i < |d.workers| && d.workers[i].pc.NotStarted?
    ensures !StopIsSafe(d, limits)
  {
    var u := Do(d, limits, CallStop);
    StepKeepsInv(d, limits, CallStop);
    var steps := Escape(u, limits, i);
    RunKeepsInv(u, limits, steps);
    DeliveringIsHeld(Exec(u, limits, steps), limits, i);
  }

  // ---------- `Stop` can always return ----------

  lemma CloserEnds(d: Dispatcher, limits: Limits)
    requires PhasesAreInOrder(d) && d.closer.StopLoop?
    ensures var t := Exec(d, limits, [CloserMoves, CloserMoves] + [CloserMoves]);
            t.closer.CloserDone? && t.stopped && t.stopper == d.stopper && |t.workers| == |d.workers|
  {
    ExecTwo(d, limits, CloserMoves, CloserMoves);
    assert Do(d, limits, CloserMoves) == d.(looping := false, closer := CloseScheduler);
    var u := d.(looping := false, stopped := true, closer := Discarding);
    ExecStep(u, limits, CloserMoves, []);
    ExecConcat(d, limits, [CloserMoves, CloserMoves], [CloserMoves]);
  }

  /** The assigner is done, and the rest of the shutdown stands where it stood. */
  predicate AssignerHasEnded(d: Dispatcher, t: Dispatcher) {
    t.assigner.AssignerDone? && SamePhase(d, t)
  }

  lemma SeesStop(d: Dispatcher, limits: Limits)
    requires d.stopped && (d.assigner.AwaitWorker? || d.assigner.Waiting?)
    ensures AssignerHasEnded(d, Exec(d, limits, [AssignerSeesStop]))
  {
    ExecStep(d, limits, AssignerSeesStop, []);
  }

  lemma SendsAndEnds(d: Dispatcher, limits: Limits)
    requires TokensAreExact(d) && d.stopped && d.assigner.Sending?
    ensures AssignerHasEnded(d, Exec(d, limits, [AssignerSends] + [AssignerSeesStop]))
  {
    ExecStep(d, limits, AssignerSends, [AssignerSeesStop]);
    SeesStop(Do(d, limits, AssignerSends), limits);
  }

  lemma TryResult(d: Dispatcher, limits: Limits)
    requires Valid(d.sched, limits) && d.assigner.Trying?
    ensures var t := Do(d, limits, AssignerTries); (t.assigner.Waiting? || t.assigner.Sending?) && SamePhase(d, t)
  {
    NextRunsOne(d.sched, limits);
  }

  lemma AssignerEnds(d: Dispatcher, limits: Limits) returns (steps: seq<Step>)
    requires Inv(d, limits) && d.stopped
    ensures AssignerHasEnded(d, Exec(d, limits, steps))
  {
    match d.assigner
    case AssignerDone => steps := [];
    case Sending(_, _) =>
      SendsAndEnds(d, limits);
      steps := [AssignerSends] + [AssignerSeesStop];
    case Trying(_) =>
      TryResult(d, limits);
      StepKeepsInv(d, limits, AssignerTries);
      var t := Do(d, limits, AssignerTries);
      var rest := if t.assigner.Sending? then [AssignerSends] + [AssignerSeesStop] else [AssignerSeesStop];
      if t.assigner.Sending? { SendsAndEnds(t, limits); } else { SeesStop(t, limits); }
      ExecStep(d, limits, AssignerTries, rest);
      steps := [AssignerTries] + rest;
    case _ =>
      SeesStop(d, limits);
      steps := [AssignerSeesStop];
  }

  /** With assigner and closer done, the rest of `Stop` goes through. */
  lemma LastMovesReturn(d: Dispatcher, limits: Limits) returns (steps: seq<Step>)
    requires d.stopper.AwaitGroup? && d.closer.CloserDone? && d.assigner.AssignerDone?
    ensures Exec(d, limits, steps).stopper.Returned?
  {
    var last := Repeat(StopperMoves, |d.workers| + 1);
    assert Do(d, limits, StopperMoves) == d.(stopper := AwaitAssigner);
    ExecTwo(d, limits, StopperMoves, StopperMoves);
    ReleasingPasses(d.(stopper := Releasing(0)), limits, 0);
    steps := [StopperMoves, StopperMoves] + last;
    ExecConcat(d, limits, [StopperMoves, StopperMoves], last);
  }

  lemma ClosedStopReturns(d: Dispatcher, limits: Limits) returns (steps: seq<Step>)
    requires Inv(d, limits) && d.stopped && d.closer.CloserDone? && d.stopper.AwaitGroup?
    ensures Exec(d, limits, steps).stopper.Returned?
  {
    var end := AssignerEnds(d, limits);
    var last := LastMovesReturn(Exec(d, limits, end), limits);
    steps := end + last;
    ExecConcat(d, limits, end, last);
  }

  /** From the end of the poll on, some steps bring `Stop` to its return in time. */
  lemma PolledStopReturns(d: Dispatcher, limits: Limits) returns (steps: seq<Step>)
    requires Inv(d, limits) && d.closer.StopLoop? && d.stopper.AwaitGroup?
    ensures Exec(d, limits, steps).stopper.Returned?
  {
    var close := [CloserMoves, CloserMoves] + [CloserMoves];
    CloserEnds(d, limits);
    RunKeepsInv(d, limits, close);
    var rest := ClosedStopReturns(Exec(d, limits, close), limits);
    steps := close + rest;
    ExecConcat(d, limits, close, rest);
  }

  /** From every reachable state before `Stop`, some run of it returns in time: the safety above is not an empty one. */
  lemma StopCanReturn(n: nat, limits: Limits, before: seq<Step>) returns (steps: seq<Step>)
    requires Exec(Start(n), limits, before).stopper.Idle?
    ensures Exec(Do(Exec(Start(n), limits, before), limits, CallStop), limits, steps).stopper.Returned?
  {
    StartIsSound(n, limits);
    RunKeepsInv(Start(n), limits, before);
    var d := Exec(Start(n), limits, before);
    StepKeepsInv(d, limits, CallStop);
    var u := Do(d, limits, CallStop);
    var poll := PollEnds(u, limits);
    var rest := PolledStopReturns(Exec(u, limits, poll), limits);
    steps := poll + rest;
    ExecConcat(u, limits, poll, rest);
  }
}
