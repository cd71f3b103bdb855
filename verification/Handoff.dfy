/**
  The concurrent life of a dispatcher: the loop that queues jobs, the assigner, the workers
  with their channels, the wake slot, and the shutdown. Every atomic action of every
  goroutine is one step, so a run is an arbitrary interleaving.
 */
module Handoff {
  import opened Types
  import opened JobQueue
  import opened Lanes

  /** Where the assigner is; `w` is the worker whose channel it took from the pool. */
  datatype Assigner = AwaitWorker | Trying(w: nat) | Waiting(w: nat) | Sending(w: nat, job: JobData) | AssignerDone

  datatype WorkerPc = NotStarted | Registering | Selecting | Delivering(job: JobData) | Exited

  datatype Worker = Worker(pc: WorkerPc, channel: Option<JobData>, quit: bool, working: bool)

  /** The goroutine of `Stop` that ends the loops and discards the waiting jobs. */
  datatype Closer = NotCalled | StopLoop | CloseScheduler | Discarding | CloserDone

  /** The caller of `Stop`: it polls the workers, waits, and releases the jobs no worker read. */
  datatype Stopper = Idle | Polling(i: nat, seen: bool) | AwaitGroup | AwaitAssigner | Releasing(i: nat) | Returned | TimedOut

  /**
    `signallers` counts the callers between the unlock and the signal of `enqueue` or `done`.
    `handed` and `released` are history: the tickets (entry numbers) of the jobs that `tryNext`
    handed out and that `done` released, with 0 for a `done` of a job not held. `allStarted` records whether every worker goroutine
    was up when `Stop` was called.
   */
  datatype Dispatcher = Dispatcher(
    sched: Sched,
    wake: bool,
    signallers: nat,
    looping: bool,
    stopped: bool,
    assigner: Assigner,
    workers: seq<Worker>,
    pool: seq<nat>,
    closer: Closer,
    stopper: Stopper,
    handed: multiset<nat>,
    released: multiset<nat>,
    allStarted: bool)

  function Start(n: nat): Dispatcher {
    Dispatcher(NewSched, false, 0, true, false, AwaitWorker, seq(n, _ => Worker(NotStarted, None, false, false)), [],
               NotCalled, Idle, multiset{}, multiset{}, false)
  }

  datatype Step =
    | EnqueueJob(data: JobData)
    | Signal
    | AssignerTakesWorker
    | AssignerSeesStop
    | AssignerTries
    | AssignerWakes
    | AssignerSends
    | WorkerStarts(i: nat)
    | WorkerRegisters(i: nat)
    | WorkerReads(i: nat)
    | WorkerFinishes(i: nat)
    | WorkerQuits(i: nat)
    | CallStop
    | SendQuit(i: nat)
    | CloserMoves
    | StopperMoves
    | StopperTimesOut

  function WithWorker(d: Dispatcher, i: nat, w: Worker): Dispatcher
    requires i < |d.workers|
  {
    d.(workers := d.workers[i := w])
  }

  /** `done` for a job in someone's hands: the slot is freed under the lock, the signal follows. */
  function Release(d: Dispatcher, job: JobData): Dispatcher {
    d.(sched := Done(d.sched, job), signallers := d.signallers + 1,
       released := d.released + multiset{if job.id in d.sched.tracked then d.sched.tracked[job.id].entry.seqNo else 0})
  }

  /** A fresh copy of a job has the lane of the copy that is held. */
  predicate Accepts(s: Sched, data: JobData) {
    data.id in s.tracked ==> s.tracked[data.id].data.lane == data.lane
  }

  function DoEnqueue(d: Dispatcher, limits: Limits, data: JobData): Dispatcher {
    if !d.looping || !Accepts(d.sched, data) then d else
    d.(sched := Enqueue(d.sched, limits, data), signallers := if data.id in d.sched.tracked then d.signallers else d.signallers + 1)
  }

  function DoTry(d: Dispatcher): Dispatcher {
    if !d.assigner.Trying? || !AllCanRun(d.sched.lanes, d.sched.ready) then d else
    match TryNext(d.sched)
    case (_, None) => d.(assigner := Waiting(d.assigner.w))
    case (sched, Some(e)) =>
      if e.id !in sched.tracked then d else
      d.(sched := sched, assigner := Sending(d.assigner.w, sched.tracked[e.id].data), handed := d.handed + multiset{e.seqNo})
  }

  function DoSend(d: Dispatcher): Dispatcher {
    if !d.assigner.Sending? || d.assigner.w >= |d.workers| || d.workers[d.assigner.w].channel.Some? then d else
    WithWorker(d, d.assigner.w, d.workers[d.assigner.w].(channel := Some(d.assigner.job))).(assigner := AwaitWorker)
  }

  function DoWorker(d: Dispatcher, step: Step): Dispatcher
    requires step.WorkerStarts? || step.WorkerRegisters? || step.WorkerReads? || step.WorkerFinishes? || step.WorkerQuits?
  {
    if step.i >= |d.workers| then d else
    var i, w := step.i, d.workers[step.i];
    match step
    case WorkerStarts(_) => if w.pc.NotStarted? then WithWorker(d, i, w.(pc := Registering, working := true)) else d
    case WorkerRegisters(_) =>
      if w.pc.Registering? && |d.pool| < |d.workers| then WithWorker(d, i, w.(pc := Selecting)).(pool := d.pool + [i]) else d
    case WorkerReads(_) =>
      if w.pc.Selecting? && w.channel.Some? then WithWorker(d, i, w.(pc := Delivering(w.channel.value), channel := None)) else d
    case WorkerFinishes(_) => if w.pc.Delivering? then WithWorker(Release(d, w.pc.job), i, w.(pc := Registering)) else d
    case WorkerQuits(_) => if w.pc.Selecting? && w.quit then WithWorker(d, i, w.(pc := Exited, quit := false, working := false)) else d
  }

  function DoCloser(d: Dispatcher): Dispatcher {
    match d.closer
    case StopLoop => if d.looping then d.(looping := false, closer := CloseScheduler) else d
    case CloseScheduler => d.(stopped := true, closer := Discarding)
    case Discarding => d.(sched := DiscardQueued(d.sched), closer := CloserDone)
    case _ => d
  }

  function DoStopper(d: Dispatcher): Dispatcher {
    match d.stopper
    case Polling(i, seen) =>
      if i < |d.workers| then d.(stopper := Polling(i + 1, seen || d.workers[i].working))
      else if seen then d.(stopper := Polling(0, false))
      else d.(stopper := AwaitGroup)
    case AwaitGroup => if d.closer.CloserDone? then d.(stopper := AwaitAssigner) else d
    case AwaitAssigner => if d.assigner.AssignerDone? then d.(stopper := Releasing(0)) else d
    case Releasing(i) =>
      if i >= |d.workers| then d.(stopper := Returned)
      else if d.workers[i].channel.None? then d.(stopper := Releasing(i + 1))
      else WithWorker(Release(d, d.workers[i].channel.value), i, d.workers[i].(channel := None)).(stopper := Releasing(i + 1))
    case _ => d
  }

  predicate EveryWorkerStarted(d: Dispatcher) {
    forall i | 0 <= i < |d.workers| :: !d.workers[i].pc.NotStarted?
  }

  /** A step that is not enabled changes nothing. */
  function Do(d: Dispatcher, limits: Limits, step: Step): Dispatcher {
    match step
    case EnqueueJob(data) => DoEnqueue(d, limits, data)
    case Signal => if d.signallers > 0 then d.(wake := true, signallers := d.signallers - 1) else d
    case AssignerTakesWorker =>
      if d.assigner.AwaitWorker? && d.pool != [] then d.(assigner := Trying(d.pool[0]), pool := d.pool[1..]) else d
    case AssignerSeesStop => if (d.assigner.AwaitWorker? || d.assigner.Waiting?) && d.stopped then d.(assigner := AssignerDone) else d
    case AssignerTries => DoTry(d)
    case AssignerWakes => if d.assigner.Waiting? && d.wake then d.(assigner := Trying(d.assigner.w), wake := false) else d
    case AssignerSends => DoSend(d)
    case CallStop =>
      if d.stopper.Idle? then d.(stopper := Polling(0, false), closer := StopLoop, allStarted := EveryWorkerStarted(d)) else d
    case SendQuit(i) => if !d.stopper.Idle? && i < |d.workers| then WithWorker(d, i, d.workers[i].(quit := true)) else d
    case CloserMoves => DoCloser(d)
    case StopperMoves => DoStopper(d)
    case StopperTimesOut => if d.stopper.AwaitAssigner? then d.(stopper := TimedOut) else d
    case _ => DoWorker(d, step)
  }

  function Exec(d: Dispatcher, limits: Limits, steps: seq<Step>): Dispatcher
    decreases |steps|
  {
    if steps == [] then d else Exec(Do(d, limits, steps[0]), limits, steps[1..])
  }

  // ---------- who holds which job ----------

  datatype Place = Hand | Channel(i: nat) | AtWorker(i: nat)

  function Holds(d: Dispatcher, p: Place): Option<JobData> {
    match p
    case Hand => if d.assigner.Sending? then Some(d.assigner.job) else None
    case Channel(i) => if i < |d.workers| then d.workers[i].channel else None
    case AtWorker(i) => if i < |d.workers| && d.workers[i].pc.Delivering? then Some(d.workers[i].pc.job) else None
  }

  function RunningJobs(s: Sched): map<JobId, Held> {
    map id | id in s.tracked && s.tracked[id].running :: s.tracked[id]
  }

  /** Every running job is in exactly one place, and nothing else is in any place. */
  ghost predicate PlacesAreExact(d: Dispatcher) {
    var r := RunningJobs(d.sched);
    && (forall p | Holds(d, p).Some? :: Holds(d, p).value.id in r && r[Holds(d, p).value.id].data == Holds(d, p).value)
    && (forall p, q | Holds(d, p).Some? && Holds(d, q).Some? && Holds(d, p).value.id == Holds(d, q).value.id :: p == q)
    && (forall id | id in r :: exists p :: Holds(d, p).Some? && Holds(d, p).value.id == id)
  }

  // ---------- the other invariants ----------

  /** A worker's channel is empty and offered at most once while it is in the pool or with the assigner. */
  ghost predicate TokensAreExact(d: Dispatcher) {
    && (forall i, j | 0 <= i < j < |d.pool| :: d.pool[i] != d.pool[j])
    && (forall i | i in d.pool :: i < |d.workers| && d.workers[i].channel == None)
    && (HasWorker(d.assigner) ==> d.assigner.w < |d.workers| && d.assigner.w !in d.pool && d.workers[d.assigner.w].channel == None)
    && forall i | 0 <= i < |d.workers| && Busy(d.workers[i].pc) ::
         i !in d.pool && d.workers[i].channel == None && (HasWorker(d.assigner) ==> d.assigner.w != i)
  }

  predicate HasWorker(a: Assigner) {
    a.Trying? || a.Waiting? || a.Sending?
  }

  /** The worker has not offered its channel. */
  predicate Busy(pc: WorkerPc) {
    pc.NotStarted? || pc.Registering? || pc.Delivering?
  }

  /** While the assigner waits and some lane can run, the wake slot is full or a signal is on its way. */
  ghost predicate NoWakeUpIsLost(d: Dispatcher) {
    d.assigner.Waiting? && (exists key :: key in d.sched.lanes && CanRun(d.sched.lanes[key])) ==> d.wake || d.signallers > 0
  }

  ghost predicate PhasesAreInOrder(d: Dispatcher) {
    && d.looping == (d.closer.NotCalled? || d.closer.StopLoop?)
    && d.stopped == (d.closer.Discarding? || d.closer.CloserDone?)
    && d.stopper.Idle? == d.closer.NotCalled?
    && (d.assigner.AssignerDone? ==> d.stopped)
    && (d.closer.CloserDone? ==> forall id | id in d.sched.tracked :: d.sched.tracked[id].running)
    && (d.stopper.AwaitAssigner? || d.stopper.Releasing? || d.stopper.Returned? || d.stopper.TimedOut? ==> d.closer.CloserDone?)
    && (d.stopper.Releasing? || d.stopper.Returned? ==> d.assigner.AssignerDone?)
    && (d.stopper.Releasing? ==> forall i | 0 <= i < |d.workers| && i < d.stopper.i :: d.workers[i].channel == None)
    && (d.stopper.Returned? ==> forall i | 0 <= i < |d.workers| :: d.workers[i].channel == None)
  }

  /** If every worker was up when `Stop` was called, those the poll saw at rest have exited for good. */
  ghost predicate PollIsSound(d: Dispatcher) {
    && (forall i | 0 <= i < |d.workers| :: d.workers[i].working == (!d.workers[i].pc.NotStarted? && !d.workers[i].pc.Exited?))
    && (d.allStarted ==> EveryWorkerStarted(d))
    && (d.allStarted && d.stopper.Polling? && !d.stopper.seen ==> forall i | 0 <= i < |d.workers| && i < d.stopper.i :: d.workers[i].pc.Exited?)
    && (d.allStarted && !d.stopper.Idle? && !d.stopper.Polling? ==> forall i | 0 <= i < |d.workers| :: d.workers[i].pc.Exited?)
    && (d.stopper.Idle? ==> !d.allStarted)
  }

  /** A ticket is out exactly while its job runs; no ticket is handed out or released twice. */
  ghost predicate TicketsAreExact(d: Dispatcher) {
    && d.released <= d.handed
    && (forall n | n in d.handed :: d.handed[n] == 1 && n <= d.sched.lastSeq)
    && (forall id | id in d.sched.tracked :: d.sched.tracked[id].running == (d.sched.tracked[id].entry.seqNo in d.handed))
    && (forall id | id in d.sched.tracked :: d.sched.tracked[id].entry.seqNo !in d.released)
    && (forall n | n in d.handed && n !in d.released :: exists id :: id in d.sched.tracked && d.sched.tracked[id].entry.seqNo == n)
  }

  /** What does not look inside the scheduler. */
  ghost predicate ControlIsSound(d: Dispatcher) {
    TokensAreExact(d) && NoWakeUpIsLost(d) && PhasesAreInOrder(d) && PollIsSound(d)
  }

  ghost predicate Inv(d: Dispatcher, limits: Limits) {
    Valid(d.sched, limits) && PlacesAreExact(d) && TicketsAreExact(d) && ControlIsSound(d)
  }

  // ---------- the scheduler's calls ----------

  lemma EnqueueRunsNothing(s: Sched, limits: Limits, data: JobData)
    ensures RunningJobs(Enqueue(s, limits, data)) == RunningJobs(s)
  {
  }

  lemma NextRunsOne(s: Sched, limits: Limits)
    requires Valid(s, limits)
    ensures AllCanRun(s.lanes, s.ready)
    ensures s.ready != [] ==>
              var e := TryNext(s).1.value;
              var t := TryNext(s).0;
              && e.id in s.tracked && !s.tracked[e.id].running && s.tracked[e.id].entry == e
              && t.tracked == s.tracked[e.id := s.tracked[e.id].(running := true)] && t.lastSeq == s.lastSeq
  {
    ValidCanRun(s);
    if s.ready != [] {
      var key := s.ready[BestIndex(s.lanes, s.ready)];
      assert s.lanes[key].queue[0] in s.lanes[key].queue;
    }
  }

  lemma DoneTracks(s: Sched, data: JobData)
    ensures Done(s, data).tracked == s.tracked - {data.id} && Done(s, data).lastSeq == s.lastSeq
  {
  }

  lemma NothingCanRun(s: Sched)
    requires ReadyIsExact(s) && s.ready == []
    ensures !exists key :: key in s.lanes && CanRun(s.lanes[key])
  {
  }

  // ---------- moving jobs between places ----------

  lemma SamePlaces(d: Dispatcher, t: Dispatcher)
    requires PlacesAreExact(d) && RunningJobs(t.sched) == RunningJobs(d.sched) && forall p :: Holds(t, p) == Holds(d, p)
    ensures PlacesAreExact(t)
  {
    forall id | id in RunningJobs(t.sched) ensures exists p :: Holds(t, p).Some? && Holds(t, p).value.id == id {
      var p :| Holds(d, p).Some? && Holds(d, p).value.id == id;
      assert Holds(t, p).Some?;
    }
  }

  lemma MovedPlace(d: Dispatcher, t: Dispatcher, from: Place, to: Place)
    requires PlacesAreExact(d) && RunningJobs(t.sched) == RunningJobs(d.sched) && from != to
    requires Holds(d, to) == None && Holds(t, from) == None && Holds(t, to) == Holds(d, from)
    requires forall p | p != from && p != to :: Holds(t, p) == Holds(d, p)
    ensures PlacesAreExact(t)
  {
    forall id | id in RunningJobs(t.sched) ensures exists p :: Holds(t, p).Some? && Holds(t, p).value.id == id {
      var p :| Holds(d, p).Some? && Holds(d, p).value.id == id;
      if p == from { assert Holds(t, to).Some?; } else { assert Holds(t, p).Some?; }
    }
    forall p, q | Holds(t, p).Some? && Holds(t, q).Some? && Holds(t, p).value.id == Holds(t, q).value.id ensures p == q {
      var p', q' := if p == to then from else p, if q == to then from else q;
      assert Holds(d, p') == Holds(t, p) && Holds(d, q') == Holds(t, q);
    }
  }

  lemma FilledPlace(d: Dispatcher, t: Dispatcher, to: Place)
    requires PlacesAreExact(d) && Holds(d, to) == None && Holds(t, to).Some?
    requires var job := Holds(t, to).value;
             && job.id !in RunningJobs(d.sched)
             && job.id in RunningJobs(t.sched) && RunningJobs(t.sched)[job.id].data == job
             && RunningJobs(t.sched) == RunningJobs(d.sched)[job.id := RunningJobs(t.sched)[job.id]]
    requires forall p | p != to :: Holds(t, p) == Holds(d, p)
    ensures PlacesAreExact(t)
  {
    forall id | id in RunningJobs(t.sched) ensures exists p :: Holds(t, p).Some? && Holds(t, p).value.id == id {
      if id == Holds(t, to).value.id {
        assert Holds(t, to).Some?;
      } else {
        var p :| Holds(d, p).Some? && Holds(d, p).value.id == id;
        assert Holds(t, p).Some?;
      }
    }
  }

  lemma EmptiedPlace(d: Dispatcher, t: Dispatcher, from: Place)
    requires PlacesAreExact(d) && Holds(d, from).Some? && Holds(t, from) == None
    requires RunningJobs(t.sched) == RunningJobs(d.sched) - {Holds(d, from).value.id}
    requires forall p | p != from :: Holds(t, p) == Holds(d, p)
    ensures PlacesAreExact(t)
  {
    forall id | id in RunningJobs(t.sched) ensures exists p :: Holds(t, p).Some? && Holds(t, p).value.id == id {
      var p :| Holds(d, p).Some? && Holds(d, p).value.id == id;
      assert Holds(t, p).Some?;
    }
    forall p | Holds(t, p).Some? ensures Holds(t, p).value.id in RunningJobs(t.sched) {
      assert Holds(d, p).Some?;
    }
  }

  // ---------- every step keeps them ----------

  lemma HeldJobRuns(d: Dispatcher, p: Place)
    requires PlacesAreExact(d) && Holds(d, p).Some?
    ensures IsRunning(d.sched, Holds(d, p).value)
  {
  }

  predicate IsQueueStep(step: Step) {
    step.EnqueueJob? || step.Signal?
  }

  predicate IsAssignerStep(step: Step) {
    step.AssignerTakesWorker? || step.AssignerSeesStop? || step.AssignerTries? || step.AssignerWakes? || step.AssignerSends?
  }

  predicate IsWorkerStep(step: Step) {
    step.WorkerStarts? || step.WorkerRegisters? || step.WorkerReads? || step.WorkerFinishes? || step.WorkerQuits?
  }

  predicate IsStopStep(step: Step) {
    step.CallStop? || step.SendQuit? || step.CloserMoves? || step.StopperTimesOut?
  }

  // ---------- the scheduler stays valid ----------

  /** What a step can do with the scheduler. */
  ghost predicate SchedStep(d: Dispatcher, limits: Limits, t: Sched) {
    || t == d.sched
    || t == DiscardQueued(d.sched)
    || (AllCanRun(d.sched.lanes, d.sched.ready) && t == TryNext(d.sched).0)
    || (exists data :: Accepts(d.sched, data) && t == Enqueue(d.sched, limits, data))
    || (exists p :: Holds(d, p).Some? && t == Done(d.sched, Holds(d, p).value))
  }

  lemma SchedStepKeepsValid(d: Dispatcher, limits: Limits, t: Sched)
    requires Valid(d.sched, limits) && PlacesAreExact(d) && SchedStep(d, limits, t)
    ensures Valid(t, limits)
  {
    if t == DiscardQueued(d.sched) {
      DiscardKeepsValid(d.sched, limits);
    } else if AllCanRun(d.sched.lanes, d.sched.ready) && t == TryNext(d.sched).0 {
      TryNextKeepsValid(d.sched, limits);
    } else if data :| Accepts(d.sched, data) && t == Enqueue(d.sched, limits, data) {
      EnqueueKeepsValid(d.sched, limits, data);
    } else if p :| Holds(d, p).Some? && t == Done(d.sched, Holds(d, p).value) {
      HeldJobRuns(d, p);
      DoneKeepsValid(d.sched, limits, Holds(d, p).value);
    }
  }

  lemma StopperIsSchedStep(d: Dispatcher, limits: Limits)
    ensures SchedStep(d, limits, DoStopper(d).sched)
  {
    if d.stopper.Releasing? && Holds(d, Channel(d.stopper.i)).Some? {
      assert DoStopper(d).sched == Done(d.sched, Holds(d, Channel(d.stopper.i)).value);
    }
  }

  lemma WorkerStepIsSchedStep(d: Dispatcher, limits: Limits, step: Step)
    requires IsWorkerStep(step)
    ensures SchedStep(d, limits, DoWorker(d, step).sched)
  {
    if step.WorkerFinishes? && Holds(d, AtWorker(step.i)).Some? {
      assert DoWorker(d, step).sched == Done(d.sched, Holds(d, AtWorker(step.i)).value);
    }
  }

  lemma EnqueueIsSchedStep(d: Dispatcher, limits: Limits, data: JobData)
    ensures SchedStep(d, limits, DoEnqueue(d, limits, data).sched)
  {
  }

  lemma StepIsSchedStep(d: Dispatcher, limits: Limits, step: Step)
    ensures SchedStep(d, limits, Do(d, limits, step).sched)
  {
    if step.StopperMoves? {
      StopperIsSchedStep(d, limits);
    } else if step.EnqueueJob? {
      EnqueueIsSchedStep(d, limits, step.data);
    } else if IsWorkerStep(step) {
      WorkerStepIsSchedStep(d, limits, step);
    }
  }

  // ---------- the rest stays sound ----------

  lemma QueueStepKeepsControl(d: Dispatcher, limits: Limits, step: Step)
    requires ControlIsSound(d) && IsQueueStep(step)
    ensures ControlIsSound(Do(d, limits, step))
  {
  }

  lemma TakingAWorkerKeepsTokens(d: Dispatcher)
    requires TokensAreExact(d) && d.assigner.AwaitWorker? && d.pool != []
    ensures TokensAreExact(d.(assigner := Trying(d.pool[0]), pool := d.pool[1..]))
  {
    assert d.pool == [d.pool[0]] + d.pool[1..];
    assert d.pool[0] in d.pool && d.pool[0] !in d.pool[1..];
  }

  lemma TryKeepsControl(d: Dispatcher, limits: Limits)
    requires ReadyIsExact(d.sched) && ControlIsSound(d)
    ensures ControlIsSound(DoTry(d))
  {
    if d.sched.ready == [] { NothingCanRun(d.sched); }
  }

  lemma SendingKeepsTokens(d: Dispatcher)
    requires TokensAreExact(d)
    ensures TokensAreExact(DoSend(d))
  {
  }

  lemma AssignerStepKeepsTokens(d: Dispatcher, limits: Limits, step: Step)
    requires TokensAreExact(d) && IsAssignerStep(step) && !step.AssignerTries?
    ensures TokensAreExact(Do(d, limits, step))
  {
    if step.AssignerTakesWorker? && d.assigner.AwaitWorker? && d.pool != [] { TakingAWorkerKeepsTokens(d); }
    if step.AssignerSends? { SendingKeepsTokens(d); }
  }

  lemma AssignerStepKeepsPhases(d: Dispatcher, limits: Limits, step: Step)
    requires NoWakeUpIsLost(d) && PhasesAreInOrder(d) && PollIsSound(d) && IsAssignerStep(step) && !step.AssignerTries?
    ensures NoWakeUpIsLost(Do(d, limits, step)) && PhasesAreInOrder(Do(d, limits, step)) && PollIsSound(Do(d, limits, step))
  {
  }

  lemma WorkerStepKeepsTokens(d: Dispatcher, step: Step)
    requires TokensAreExact(d) && IsWorkerStep(step)
    ensures TokensAreExact(DoWorker(d, step))
  {
  }

  lemma WorkerStepKeepsWakeUps(d: Dispatcher, step: Step)
    requires NoWakeUpIsLost(d) && IsWorkerStep(step)
    ensures NoWakeUpIsLost(DoWorker(d, step))
  {
  }

  lemma FinishKeepsPhases(d: Dispatcher, i: nat)
    requires TokensAreExact(d) && PhasesAreInOrder(d)
    ensures PhasesAreInOrder(DoWorker(d, WorkerFinishes(i)))
  {
  }

  lemma WorkerStepKeepsPhases(d: Dispatcher, step: Step)
    requires TokensAreExact(d) && PhasesAreInOrder(d) && IsWorkerStep(step)
    ensures PhasesAreInOrder(DoWorker(d, step))
  {
    if step.WorkerFinishes? { FinishKeepsPhases(d, step.i); }
  }

  lemma WorkerStepKeepsPoll(d: Dispatcher, step: Step)
    requires PollIsSound(d) && IsWorkerStep(step)
    ensures PollIsSound(DoWorker(d, step))
  {
  }

  lemma WorkerStepKeepsControl(d: Dispatcher, step: Step)
    requires ControlIsSound(d) && IsWorkerStep(step)
    ensures ControlIsSound(DoWorker(d, step))
  {
    WorkerStepKeepsTokens(d, step);
    WorkerStepKeepsWakeUps(d, step);
    WorkerStepKeepsPhases(d, step);
    WorkerStepKeepsPoll(d, step);
  }

  lemma CloserKeepsControl(d: Dispatcher)
    requires ControlIsSound(d)
    ensures ControlIsSound(DoCloser(d))
  {
  }

  lemma CallStopKeepsControl(d: Dispatcher, limits: Limits)
    requires ControlIsSound(d)
    ensures ControlIsSound(Do(d, limits, CallStop))
  {
  }

  lemma StopStepKeepsControl(d: Dispatcher, limits: Limits, step: Step)
    requires ControlIsSound(d) && (step.SendQuit? || step.StopperTimesOut?)
    ensures ControlIsSound(Do(d, limits, step))
  {
  }

  lemma ClearingKeepsTokens(d: Dispatcher, t: Dispatcher, i: nat)
    requires TokensAreExact(d) && i < |d.workers|
    requires t.pool == d.pool && t.assigner == d.assigner && t.workers == d.workers[i := d.workers[i].(channel := None)]
    ensures TokensAreExact(t)
  {
  }

  /** What a step of the caller of `Stop` leaves alone: it only empties the channel it has come to. */
  ghost predicate StopperMove(d: Dispatcher, t: Dispatcher) {
    && t.pool == d.pool && t.assigner == d.assigner && t.closer == d.closer && t.allStarted == d.allStarted
    && (t.workers == d.workers
        || (d.stopper.Releasing? && d.stopper.i < |d.workers|
            && t.workers == d.workers[d.stopper.i := d.workers[d.stopper.i].(channel := None)]))
  }

  lemma StopperMovesSo(d: Dispatcher)
    ensures StopperMove(d, DoStopper(d))
  {
    if d.stopper.Releasing? && d.stopper.i < |d.workers| && d.workers[d.stopper.i].channel.None? {
      assert d.workers[d.stopper.i := d.workers[d.stopper.i].(channel := None)] == d.workers;
    }
  }

  lemma StopperKeepsTokens(d: Dispatcher, t: Dispatcher)
    requires TokensAreExact(d) && StopperMove(d, t)
    ensures TokensAreExact(t)
  {
    if t.workers != d.workers { ClearingKeepsTokens(d, t, d.stopper.i); }
  }

  lemma StopperKeepsPhases(d: Dispatcher)
    requires NoWakeUpIsLost(d) && PhasesAreInOrder(d)
    ensures NoWakeUpIsLost(DoStopper(d)) && PhasesAreInOrder(DoStopper(d))
  {
  }

  lemma PollingKeepsPoll(d: Dispatcher)
    requires PollIsSound(d) && d.stopper.Polling?
    ensures PollIsSound(DoStopper(d))
  {
  }

  lemma StopperKeepsPoll(d: Dispatcher)
    requires PollIsSound(d)
    ensures PollIsSound(DoStopper(d))
  {
    if d.stopper.Polling? {
      PollingKeepsPoll(d);
    } else if !d.stopper.Idle? {
      StopperMovesSo(d);
      StopperLeavesPoll(d, DoStopper(d));
    }
  }

  lemma StopperLeavesPoll(d: Dispatcher, t: Dispatcher)
    requires PollIsSound(d) && !d.stopper.Idle? && !d.stopper.Polling? && !t.stopper.Idle? && !t.stopper.Polling?
    requires StopperMove(d, t)
    ensures PollIsSound(t)
  {
  }

  // ---------- tickets ----------

  /** Nothing starts or stops running, and only jobs with a fresh number are added. */
  lemma TicketsStay(d: Dispatcher, t: Dispatcher)
    requires TicketsAreExact(d) && t.handed == d.handed && t.released == d.released && t.sched.lastSeq >= d.sched.lastSeq
    requires RunningJobs(t.sched) == RunningJobs(d.sched)
    requires forall id | id in t.sched.tracked && !t.sched.tracked[id].running ::
               || t.sched.tracked[id].entry.seqNo > d.sched.lastSeq
               || (id in d.sched.tracked && !d.sched.tracked[id].running && t.sched.tracked[id].entry == d.sched.tracked[id].entry)
    ensures TicketsAreExact(t)
  {
    forall id | id in t.sched.tracked
      ensures t.sched.tracked[id].running == (t.sched.tracked[id].entry.seqNo in t.handed)
      ensures t.sched.tracked[id].entry.seqNo !in t.released
    {
      if t.sched.tracked[id].running { assert id in RunningJobs(d.sched) && RunningJobs(t.sched)[id] == RunningJobs(d.sched)[id]; }
    }
    forall n | n in t.handed && n !in t.released ensures exists id :: id in t.sched.tracked && t.sched.tracked[id].entry.seqNo == n {
      var id: JobId :| id in d.sched.tracked && d.sched.tracked[id].entry.seqNo == n;
      assert id in RunningJobs(d.sched) && RunningJobs(t.sched)[id] == RunningJobs(d.sched)[id];
    }
  }

  lemma HandedIsFresh(d: Dispatcher, t: Dispatcher, id: JobId)
    requires TicketsAreExact(d) && SeqNosDiffer(d.sched)
    requires id in d.sched.tracked && !d.sched.tracked[id].running
    requires t.sched.tracked == d.sched.tracked[id := d.sched.tracked[id].(running := true)]
    requires t.released == d.released && t.handed == d.handed + multiset{d.sched.tracked[id].entry.seqNo}
    ensures d.sched.tracked[id].entry.seqNo !in d.handed
    ensures forall a | a in t.sched.tracked ::
              t.sched.tracked[a].running == (t.sched.tracked[a].entry.seqNo in t.handed) && t.sched.tracked[a].entry.seqNo !in t.released
  {
    assert forall a | a in t.sched.tracked && a != id :: t.sched.tracked[a].entry.seqNo != d.sched.tracked[id].entry.seqNo;
  }

  lemma HandedIsHeld(d: Dispatcher, t: Dispatcher, id: JobId, n: nat)
    requires TicketsAreExact(d) && id in d.sched.tracked
    requires t.sched.tracked == d.sched.tracked[id := d.sched.tracked[id].(running := true)]
    requires n == d.sched.tracked[id].entry.seqNo || (n in d.handed && n !in d.released)
    ensures exists a :: a in t.sched.tracked && t.sched.tracked[a].entry.seqNo == n
  {
    var a: JobId :| a in d.sched.tracked && d.sched.tracked[a].entry.seqNo == n;
    assert t.sched.tracked[a].entry.seqNo == n;
  }

  lemma TicketIsHanded(d: Dispatcher, t: Dispatcher, id: JobId)
    requires TicketsAreExact(d) && SeqNosDiffer(d.sched)
    requires id in d.sched.tracked && !d.sched.tracked[id].running && d.sched.tracked[id].entry.seqNo <= d.sched.lastSeq
    requires t.sched.tracked == d.sched.tracked[id := d.sched.tracked[id].(running := true)] && t.sched.lastSeq == d.sched.lastSeq
    requires t.released == d.released && t.handed == d.handed + multiset{d.sched.tracked[id].entry.seqNo}
    ensures TicketsAreExact(t)
  {
    HandedIsFresh(d, t, id);
    forall n | n in t.handed && n !in t.released ensures exists a :: a in t.sched.tracked && t.sched.tracked[a].entry.seqNo == n {
      HandedIsHeld(d, t, id, n);
    }
  }

  lemma TicketIsReleased(d: Dispatcher, t: Dispatcher, id: JobId)
    requires TicketsAreExact(d) && SeqNosDiffer(d.sched)
    requires id in d.sched.tracked && d.sched.tracked[id].running
    requires t.sched.tracked == d.sched.tracked - {id} && t.sched.lastSeq == d.sched.lastSeq
    requires t.handed == d.handed && t.released == d.released + multiset{d.sched.tracked[id].entry.seqNo}
    ensures TicketsAreExact(t)
  {
    forall n | n in t.handed && n !in t.released ensures exists a :: a in t.sched.tracked && t.sched.tracked[a].entry.seqNo == n {
      var a: JobId :| a in d.sched.tracked && d.sched.tracked[a].entry.seqNo == n;
      assert t.sched.tracked[a].entry.seqNo == n;
    }
  }

  // ---------- what a step can do with jobs ----------

  predicate SameBooks(d: Dispatcher, t: Dispatcher) {
    t.sched == d.sched && t.handed == d.handed && t.released == d.released
  }

  /** Jobs are queued or discarded, refreshed or left alone; no running job is touched. */
  ghost predicate LeavesRunning(d: Dispatcher, t: Dispatcher) {
    && t.handed == d.handed && t.released == d.released && t.sched.lastSeq >= d.sched.lastSeq
    && RunningJobs(t.sched) == RunningJobs(d.sched)
    && (forall id | id in t.sched.tracked && !t.sched.tracked[id].running ::
          || t.sched.tracked[id].entry.seqNo > d.sched.lastSeq
          || (id in d.sched.tracked && !d.sched.tracked[id].running && t.sched.tracked[id].entry == d.sched.tracked[id].entry))
    && forall p :: Holds(t, p) == Holds(d, p)
  }

  /** A waiting job is taken into the assigner's hand. */
  ghost predicate Hands(d: Dispatcher, t: Dispatcher, id: JobId) {
    && id in d.sched.tracked && !d.sched.tracked[id].running
    && t.sched.tracked == d.sched.tracked[id := d.sched.tracked[id].(running := true)] && t.sched.lastSeq == d.sched.lastSeq
    && t.released == d.released && t.handed == d.handed + multiset{d.sched.tracked[id].entry.seqNo}
    && t.workers == d.workers && !d.assigner.Sending? && t.assigner.Sending? && t.assigner.job == d.sched.tracked[id].data
  }

  ghost predicate Moves(d: Dispatcher, t: Dispatcher, from: Place, to: Place) {
    && SameBooks(d, t) && from != to
    && Holds(d, to) == None && Holds(t, from) == None && Holds(t, to) == Holds(d, from)
    && forall p | p != from && p != to :: Holds(t, p) == Holds(d, p)
  }

  /** A job is given up and its slot released. */
  ghost predicate Frees(d: Dispatcher, t: Dispatcher, from: Place) {
    && Holds(d, from).Some? && Holds(t, from) == None && (forall p | p != from :: Holds(t, p) == Holds(d, p))
    && SameBooks(Release(d, Holds(d, from).value), t)
  }

  ghost predicate JobsStep(d: Dispatcher, t: Dispatcher) {
    || LeavesRunning(d, t)
    || (exists id :: Hands(d, t, id))
    || (exists from, to :: Moves(d, t, from, to))
    || (exists from :: Frees(d, t, from))
  }

  lemma JobsStepKeepsJobs(d: Dispatcher, t: Dispatcher)
    requires PlacesAreExact(d) && TicketsAreExact(d) && SeqNosDiffer(d.sched) && TrackedArePlaced(d.sched)
    requires JobsStep(d, t)
    ensures PlacesAreExact(t) && TicketsAreExact(t)
  {
    if LeavesRunning(d, t) {
      SamePlaces(d, t);
      TicketsStay(d, t);
    } else if id: JobId :| Hands(d, t, id) {
      HandingOutKeepsJobs(d, t, id);
    } else if from, to :| Moves(d, t, from, to) {
      MovedPlace(d, t, from, to);
      TicketsStay(d, t);
    } else {
      var from :| Frees(d, t, from);
      FreeingKeepsJobs(d, t, from);
    }
  }

  lemma HandingOutFills(d: Dispatcher, t: Dispatcher, id: JobId)
    requires PlacesAreExact(d) && TrackedArePlaced(d.sched) && Hands(d, t, id)
    ensures PlacesAreExact(t)
  {
    assert RunningJobs(t.sched) == RunningJobs(d.sched)[id := t.sched.tracked[id]];
    FilledPlace(d, t, Hand);
  }

  lemma HandingOutKeepsJobs(d: Dispatcher, t: Dispatcher, id: JobId)
    requires PlacesAreExact(d) && TicketsAreExact(d) && SeqNosDiffer(d.sched) && TrackedArePlaced(d.sched)
    requires Hands(d, t, id)
    ensures PlacesAreExact(t) && TicketsAreExact(t)
  {
    HandingOutFills(d, t, id);
    TicketIsHanded(d, t, id);
  }

  lemma FreeingKeepsJobs(d: Dispatcher, t: Dispatcher, from: Place)
    requires PlacesAreExact(d) && TicketsAreExact(d) && SeqNosDiffer(d.sched) && Frees(d, t, from)
    ensures PlacesAreExact(t) && TicketsAreExact(t)
  {
    var job := Holds(d, from).value;
    DoneTracks(d.sched, job);
    assert RunningJobs(t.sched) == RunningJobs(d.sched) - {job.id};
    EmptiedPlace(d, t, from);
    TicketIsReleased(d, t, job.id);
  }

  lemma EnqueueIsJobsStep(d: Dispatcher, limits: Limits, data: JobData)
    ensures JobsStep(d, DoEnqueue(d, limits, data))
  {
    EnqueueRunsNothing(d.sched, limits, data);
    assert LeavesRunning(d, DoEnqueue(d, limits, data));
  }

  lemma TryHands(d: Dispatcher, next: Sched, e: Entry)
    requires d.assigner.Trying? && AllCanRun(d.sched.lanes, d.sched.ready) && TryNext(d.sched) == (next, Some(e))
    requires e.id in d.sched.tracked && !d.sched.tracked[e.id].running && d.sched.tracked[e.id].entry == e
    requires next.tracked == d.sched.tracked[e.id := d.sched.tracked[e.id].(running := true)] && next.lastSeq == d.sched.lastSeq
    ensures Hands(d, DoTry(d), e.id)
  {
    assert DoTry(d).sched == next;
  }

  lemma TryIsJobsStep(d: Dispatcher, limits: Limits)
    requires Valid(d.sched, limits)
    ensures JobsStep(d, DoTry(d))
  {
    NextRunsOne(d.sched, limits);
    if d.assigner.Trying? && d.sched.ready != [] {
      TryHands(d, TryNext(d.sched).0, TryNext(d.sched).1.value);
    } else {
      TryLeaves(d);
    }
  }

  lemma TryLeaves(d: Dispatcher)
    requires !d.assigner.Trying? || d.sched.ready == []
    ensures LeavesRunning(d, DoTry(d))
  {
  }

  lemma SendMoves(d: Dispatcher)
    requires TokensAreExact(d) && d.assigner.Sending?
    ensures Moves(d, DoSend(d), Hand, Channel(d.assigner.w))
  {
  }

  lemma AssignerStepIsJobsStep(d: Dispatcher, limits: Limits, step: Step)
    requires TokensAreExact(d) && IsAssignerStep(step) && !step.AssignerTries?
    ensures JobsStep(d, Do(d, limits, step))
  {
    if step.AssignerSends? && d.assigner.Sending? {
      SendMoves(d);
    } else {
      assert LeavesRunning(d, Do(d, limits, step));
    }
  }

  lemma FinishFrees(d: Dispatcher, i: nat)
    requires Holds(d, AtWorker(i)).Some?
    ensures Frees(d, DoWorker(d, WorkerFinishes(i)), AtWorker(i))
  {
    var r := Release(d, d.workers[i].pc.job);
    assert DoWorker(d, WorkerFinishes(i)) == WithWorker(r, i, d.workers[i].(pc := Registering));
  }

  lemma ReadMoves(d: Dispatcher, i: nat)
    requires Holds(d, Channel(i)).Some? && d.workers[i].pc.Selecting?
    ensures Moves(d, DoWorker(d, WorkerReads(i)), Channel(i), AtWorker(i))
  {
  }

  /** A worker that does not start, end or pick up a delivery. */
  lemma QuietWorker(d: Dispatcher, t: Dispatcher, i: nat, w: Worker)
    requires i < |d.workers| && t.workers == d.workers[i := w] && t.assigner == d.assigner && SameBooks(d, t)
    requires w.channel == d.workers[i].channel && !w.pc.Delivering? && !d.workers[i].pc.Delivering?
    ensures LeavesRunning(d, t)
  {
    assert forall p :: Holds(t, p) == Holds(d, p);
  }

  lemma WorkerLeaves(d: Dispatcher, step: Step)
    requires step.WorkerStarts? || step.WorkerRegisters? || step.WorkerQuits?
    ensures LeavesRunning(d, DoWorker(d, step))
  {
    var t := DoWorker(d, step);
    if t == d {
      LeavesJobs(d, d);
    } else {
      QuietWorker(d, t, step.i, t.workers[step.i]);
    }
  }

  lemma WorkerStepIsJobsStep(d: Dispatcher, step: Step)
    requires IsWorkerStep(step)
    ensures JobsStep(d, DoWorker(d, step))
  {
    if step.WorkerFinishes? {
      if Holds(d, AtWorker(step.i)).Some? { FinishFrees(d, step.i); } else { LeavesJobs(d, d); }
    } else if step.WorkerReads? {
      if Holds(d, Channel(step.i)).Some? && d.workers[step.i].pc.Selecting? { ReadMoves(d, step.i); } else { LeavesJobs(d, d); }
    } else {
      WorkerLeaves(d, step);
    }
  }

  lemma DiscardRunsSame(s: Sched)
    ensures RunningJobs(DiscardQueued(s)) == RunningJobs(s)
  {
  }

  lemma CloserIsJobsStep(d: Dispatcher)
    ensures JobsStep(d, DoCloser(d))
  {
    LeavesJobs(d, DoCloser(d));
  }

  lemma LeavesJobs(d: Dispatcher, t: Dispatcher)
    requires t.sched == d.sched || t.sched == DiscardQueued(d.sched)
    requires t.handed == d.handed && t.released == d.released && t.workers == d.workers && t.assigner == d.assigner
    ensures LeavesRunning(d, t)
  {
    DiscardRunsSame(d.sched);
  }

  lemma StopperFrees(d: Dispatcher)
    requires d.stopper.Releasing? && Holds(d, Channel(d.stopper.i)).Some?
    ensures Frees(d, DoStopper(d), Channel(d.stopper.i))
  {
    var i := d.stopper.i;
    var r := Release(d, d.workers[i].channel.value);
    assert DoStopper(d) == WithWorker(r, i, d.workers[i].(channel := None)).(stopper := Releasing(i + 1));
  }

  lemma StopperLeaves(d: Dispatcher)
    requires !d.stopper.Releasing? || Holds(d, Channel(d.stopper.i)).None?
    ensures LeavesRunning(d, DoStopper(d))
  {
    LeavesJobs(d, DoStopper(d));
  }

  lemma StopperIsJobsStep(d: Dispatcher)
    ensures JobsStep(d, DoStopper(d))
  {
    if d.stopper.Releasing? && Holds(d, Channel(d.stopper.i)).Some? { StopperFrees(d); } else { StopperLeaves(d); }
  }

  lemma OtherStepIsJobsStep(d: Dispatcher, limits: Limits, step: Step)
    requires (step.Signal? || IsStopStep(step)) && !step.CloserMoves?
    ensures JobsStep(d, Do(d, limits, step))
  {
    assert LeavesRunning(d, Do(d, limits, step));
  }

  // ---------- every run keeps the invariant ----------

  lemma StopperKeepsControl(d: Dispatcher)
    requires ControlIsSound(d)
    ensures ControlIsSound(DoStopper(d))
  {
    StopperMovesSo(d);
    StopperKeepsTokens(d, DoStopper(d));
    StopperKeepsPhases(d);
    StopperKeepsPoll(d);
  }

  lemma AssignerStepKeepsControl(d: Dispatcher, limits: Limits, step: Step)
    requires ControlIsSound(d) && IsAssignerStep(step) && !step.AssignerTries?
    ensures ControlIsSound(Do(d, limits, step))
  {
    AssignerStepKeepsTokens(d, limits, step);
    AssignerStepKeepsPhases(d, limits, step);
  }

  lemma StepKeepsControl(d: Dispatcher, limits: Limits, step: Step)
    requires ReadyIsExact(d.sched) && ControlIsSound(d)
    ensures ControlIsSound(Do(d, limits, step))
  {
    if step.AssignerTries? {
      TryKeepsControl(d, limits);
    } else if step.CloserMoves? {
      CloserKeepsControl(d);
    } else if step.StopperMoves? {
      StopperKeepsControl(d);
    } else if IsQueueStep(step) {
      QueueStepKeepsControl(d, limits, step);
    } else if IsAssignerStep(step) {
      AssignerStepKeepsControl(d, limits, step);
    } else if IsWorkerStep(step) {
      WorkerStepKeepsControl(d, step);
    } else if step.CallStop? {
      CallStopKeepsControl(d, limits);
    } else {
      StopStepKeepsControl(d, limits, step);
    }
  }

  lemma StepIsJobsStep(d: Dispatcher, limits: Limits, step: Step)
    requires Valid(d.sched, limits) && TokensAreExact(d)
    ensures JobsStep(d, Do(d, limits, step))
  {
    match step
    case EnqueueJob(data) => EnqueueIsJobsStep(d, limits, data);
    case AssignerTries => TryIsJobsStep(d, limits);
    case CloserMoves => CloserIsJobsStep(d);
    case StopperMoves => StopperIsJobsStep(d);
    case _ =>
      if IsAssignerStep(step) {
        AssignerStepIsJobsStep(d, limits, step);
      } else if IsWorkerStep(step) {
        WorkerStepIsJobsStep(d, step);
      } else {
        OtherStepIsJobsStep(d, limits, step);
      }
  }

  lemma InvAfter(d: Dispatcher, limits: Limits, t: Dispatcher)
    requires Inv(d, limits) && SchedStep(d, limits, t.sched) && JobsStep(d, t) && ControlIsSound(t)
    ensures Inv(t, limits)
  {
    SchedStepKeepsValid(d, limits, t.sched);
    JobsStepKeepsJobs(d, t);
  }

  lemma StepKeepsInv(d: Dispatcher, limits: Limits, step: Step)
    requires Inv(d, limits)
    ensures Inv(Do(d, limits, step), limits)
  {
    StepKeepsControl(d, limits, step);
    StepIsSchedStep(d, limits, step);
    StepIsJobsStep(d, limits, step);
    InvAfter(d, limits, Do(d, limits, step));
  }

  lemma StartIsSound(n: nat, limits: Limits)
    ensures Inv(Start(n), limits)
  {
  }

  lemma {:induction false} RunKeepsInv(d: Dispatcher, limits: Limits, steps: seq<Step>)
    requires Inv(d, limits)
    ensures Inv(Exec(d, limits, steps), limits)
    decreases |steps|
  {
    if steps != [] {
      StepKeepsInv(d, limits, steps[0]);
      RunKeepsInv(Do(d, limits, steps[0]), limits, steps[1..]);
    }
  }

  // ---------- what the invariant promises ----------

  lemma ReadyIsServed(d: Dispatcher, limits: Limits)
    requires Valid(d.sched, limits) && d.assigner.Trying? && exists key :: key in d.sched.lanes && CanRun(d.sched.lanes[key])
    ensures Do(d, limits, AssignerTries).assigner.Sending?
  {
    NextRunsOne(d.sched, limits);
  }

  lemma WaitingIsServed(d: Dispatcher, limits: Limits)
    requires Valid(d.sched, limits) && NoWakeUpIsLost(d) && d.assigner.Waiting?
    requires exists key :: key in d.sched.lanes && CanRun(d.sched.lanes[key])
    ensures Exec(d, limits, if d.wake then [AssignerWakes, AssignerTries] else [Signal, AssignerWakes, AssignerTries]).assigner.Sending?
  {
    var woken := d.(assigner := Trying(d.assigner.w), wake := false, signallers := if d.wake then d.signallers else d.signallers - 1);
    ReadyIsServed(woken, limits);
    if d.wake {
      WakesByOne(d, limits, woken);
    } else {
      WakesByTwo(d, limits, woken);
    }
  }

  /**
    In every reachable state, while the assigner waits and some lane can run, the wake slot is
    full or a signal is on its way; and then three steps at most bring the assigner a job.
   */
  lemma NoLostWakeUp(n: nat, limits: Limits, steps: seq<Step>)
    requires Exec(Start(n), limits, steps).assigner.Waiting?
    requires exists key :: key in Exec(Start(n), limits, steps).sched.lanes && CanRun(Exec(Start(n), limits, steps).sched.lanes[key])
    ensures var d := Exec(Start(n), limits, steps);
            && (d.wake || d.signallers > 0)
            && Exec(d, limits, if d.wake then [AssignerWakes, AssignerTries] else [Signal, AssignerWakes, AssignerTries]).assigner.Sending?
  {
    StartIsSound(n, limits);
    RunKeepsInv(Start(n), limits, steps);
    WaitingIsServed(Exec(Start(n), limits, steps), limits);
  }

  lemma WakesByOne(d: Dispatcher, limits: Limits, woken: Dispatcher)
    requires Do(d, limits, AssignerWakes) == woken
    ensures Exec(d, limits, [AssignerWakes, AssignerTries]) == Do(woken, limits, AssignerTries)
  {
    assert [AssignerWakes, AssignerTries][1..] == [AssignerTries];
    assert [AssignerTries][1..] == [];
  }

  lemma WakesByTwo(d: Dispatcher, limits: Limits, woken: Dispatcher)
    requires Do(Do(d, limits, Signal), limits, AssignerWakes) == woken
    ensures Exec(d, limits, [Signal, AssignerWakes, AssignerTries]) == Do(woken, limits, AssignerTries)
  {
    assert [Signal, AssignerWakes, AssignerTries][1..] == [AssignerWakes, AssignerTries];
    WakesByOne(Do(d, limits, Signal), limits, woken);
  }

  lemma {:induction false} DistinctFit(pool: seq<nat>, all: set<nat>)
    requires (forall i, j | 0 <= i < j < |pool| :: pool[i] != pool[j]) && forall i | i in pool :: i in all
    ensures |pool| <= |all|
  {
    if pool != [] {
      var n := |pool| - 1;
      assert pool == pool[..n] + [pool[n]] && pool[n] in pool;
      DistinctFit(pool[..n], all - {pool[n]});
    }
  }

  lemma {:induction false} Below(n: nat) returns (all: set<nat>)
    ensures |all| == n && forall i: nat :: i in all <==> i < n
  {
    all := {};
    if n > 0 {
      var less := Below(n - 1);
      all := less + {n - 1};
    }
  }

  /** In every reachable state the channel the assigner sends on is empty and the pool has room for a registering worker. */
  lemma SendsNeverBlock(n: nat, limits: Limits, steps: seq<Step>, i: nat)
    ensures var d := Exec(Start(n), limits, steps);
            && (d.assigner.Sending? ==> d.assigner.w < |d.workers| && d.workers[d.assigner.w].channel == None)
            && (i < |d.workers| && d.workers[i].pc.Registering? ==> |d.pool| < |d.workers|)
  {
    StartIsSound(n, limits);
    RunKeepsInv(Start(n), limits, steps);
    var d := Exec(Start(n), limits, steps);
    if i < |d.workers| && d.workers[i].pc.Registering? { PoolHasRoom(d, i); }
  }

  lemma PoolHasRoom(d: Dispatcher, i: nat)
    requires TokensAreExact(d) && i < |d.workers| && d.workers[i].pc.Registering?
    ensures |d.pool| < |d.workers|
  {
    var all := Below(|d.workers|);
    DistinctFit(d.pool, all - {i});
  }
}
