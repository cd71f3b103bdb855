/**
  The lane scheduler as functions on values: one lane per consumer with its waiting jobs and
  its count of running deliveries, and the list of lanes that can run. The queue of a lane is
  the sorted list that the priority queue is proved to implement.
 */
module Lanes {
  import opened Types
  import opened JobQueue

  datatype LaneKey = LaneKey(channel: string, consumer: string)

  /** A node's copy of a job. */
  datatype JobData = JobData(id: JobId, lane: LaneKey, priority: nat, retries: nat)

  /** A job that the scheduler holds: waiting as `entry` in its lane, or handed to a worker. */
  datatype Held = Held(data: JobData, entry: Entry, running: bool)

  datatype Lane = Lane(queue: seq<Entry>, inflight: nat, limit: nat, ready: bool)

  datatype Sched = Sched(lanes: map<LaneKey, Lane>, ready: seq<LaneKey>, tracked: map<JobId, Held>, lastSeq: nat)

  /** The configured limit of each lane; zero means no limit. */
  type Limits = LaneKey -> nat

  const NewSched := Sched(map[], [], map[], 0)

  predicate HasRoom(lane: Lane) {
    lane.limit == 0 || lane.inflight < lane.limit
  }

  predicate CanRun(lane: Lane) {
    |lane.queue| > 0 && HasRoom(lane)
  }

  // ---------- the operations ----------

  function MarkReady(s: Sched, key: LaneKey): Sched
    requires key in s.lanes
  {
    if !s.lanes[key].ready && CanRun(s.lanes[key]) then
      s.(lanes := s.lanes[key := s.lanes[key].(ready := true)], ready := s.ready + [key])
    else
      s
  }

  function LaneFor(s: Sched, limits: Limits, key: LaneKey): Lane {
    if key in s.lanes then s.lanes[key] else Lane([], 0, limits(key), false)
  }

  function EntryFor(s: Sched, data: JobData): Entry {
    Entry(data.id, data.priority, s.lastSeq + 1)
  }

  /** The job waits in its lane, which is made if there is none. */
  function Entered(s: Sched, limits: Limits, data: JobData): Sched {
    var lane := LaneFor(s, limits, data.lane);
    s.(tracked := s.tracked[data.id := Held(data, EntryFor(s, data), false)],
       lanes := s.lanes[data.lane := lane.(queue := Insert(lane.queue, EntryFor(s, data)))],
       lastSeq := s.lastSeq + 1)
  }

  function Refreshed(s: Sched, data: JobData): Sched
    requires data.id in s.tracked
  {
    s.(tracked := s.tracked[data.id := s.tracked[data.id].(data := data)])
  }

  predicate Outdated(s: Sched, data: JobData) {
    data.id in s.tracked && !s.tracked[data.id].running && data.retries > s.tracked[data.id].data.retries
  }

  /** Drops a job already held, except that a fresher copy replaces the data of a waiting one in place. */
  function Enqueue(s: Sched, limits: Limits, data: JobData): Sched {
    if data.id !in s.tracked then MarkReady(Entered(s, limits, data), data.lane)
    else if Outdated(s, data) then Refreshed(s, data)
    else s
  }

  predicate IsHeld(s: Sched, data: JobData) {
    data.id in s.tracked && (s.tracked[data.id].running || s.tracked[data.id].data.retries >= data.retries)
  }

  predicate AllCanRun(lanes: map<LaneKey, Lane>, ready: seq<LaneKey>) {
    forall i | 0 <= i < |ready| :: ready[i] in lanes && CanRun(lanes[ready[i]])
  }

  function HeadPriority(lanes: map<LaneKey, Lane>, key: LaneKey): nat
    requires key in lanes && CanRun(lanes[key])
  {
    lanes[key].queue[0].priority
  }

  /** The place in the list of the first lane whose next job has the highest priority. */
  function BestIndex(lanes: map<LaneKey, Lane>, ready: seq<LaneKey>): (best: nat)
    requires ready != [] && AllCanRun(lanes, ready)
    ensures best < |ready|
    ensures forall i | 0 <= i < |ready| :: HeadPriority(lanes, ready[i]) <= HeadPriority(lanes, ready[best])
    ensures forall i | 0 <= i < best :: HeadPriority(lanes, ready[i]) < HeadPriority(lanes, ready[best])
  {
    var n := |ready| - 1;
    if n == 0 then 0 else
    var best := BestIndex(lanes, ready[..n]);
    assert ready[..n][best] == ready[best];
    assert forall i | 0 <= i < n :: ready[..n][i] == ready[i];
    if HeadPriority(lanes, ready[n]) > HeadPriority(lanes, ready[best]) then n else best
  }

  /** The lanes of the list that can run, in order. */
  function Runnable(lanes: map<LaneKey, Lane>, ready: seq<LaneKey>): (r: seq<LaneKey>)
    requires forall key | key in ready :: key in lanes
    ensures AllCanRun(lanes, r)
    ensures AllCanRun(lanes, ready) ==> r == ready
  {
    if ready == [] then [] else
    var n := |ready| - 1;
    assert ready == ready[..n] + [ready[n]];
    assert AllCanRun(lanes, ready) ==> AllCanRun(lanes, ready[..n]) && CanRun(lanes[ready[n]]);
    Runnable(lanes, ready[..n]) + if CanRun(lanes[ready[n]]) then [ready[n]] else []
  }

  /** The lanes of the list that can not run lose their mark. */
  function Unmarked(lanes: map<LaneKey, Lane>, ready: seq<LaneKey>): map<LaneKey, Lane> {
    map key | key in lanes :: if key in ready && !CanRun(lanes[key]) then lanes[key].(ready := false) else lanes[key]
  }

  /** The next job of the lane at place `i` of the ready list leaves its queue; the lane leaves the list. */
  function Taken(s: Sched, i: nat): Sched
    requires i < |s.ready| && AllCanRun(s.lanes, s.ready)
  {
    var key := s.ready[i];
    var lane := s.lanes[key];
    var id := lane.queue[0].id;
    s.(ready := s.ready[..i] + s.ready[i + 1..],
       lanes := s.lanes[key := lane.(ready := false, queue := lane.queue[1..], inflight := lane.inflight + 1)],
       tracked := if id in s.tracked then s.tracked[id := s.tracked[id].(running := true)] else s.tracked)
  }

  /** Hands out that job; a lane that can still run goes to the end of the list. */
  function Serve(s: Sched, i: nat): Sched
    requires i < |s.ready| && AllCanRun(s.lanes, s.ready)
  {
    MarkReady(Taken(s, i), s.ready[i])
  }

  function TryNext(s: Sched): (Sched, Option<Entry>)
    requires AllCanRun(s.lanes, s.ready)
  {
    if s.ready == [] then (s, None) else
    var best := BestIndex(s.lanes, s.ready);
    (Serve(s, best), Some(s.lanes[s.ready[best]].queue[0]))
  }

  predicate Idle(lane: Lane) {
    lane.queue == [] && lane.inflight == 0 && !lane.ready
  }

  function Released(s: Sched, data: JobData): Sched
    requires data.lane in s.lanes
  {
    var lane := s.lanes[data.lane];
    s.(tracked := s.tracked - {data.id},
       lanes := s.lanes[data.lane := lane.(inflight := if lane.inflight > 0 then lane.inflight - 1 else 0)])
  }

  function Done(s: Sched, data: JobData): Sched {
    if data.lane !in s.lanes then s.(tracked := s.tracked - {data.id}) else
    var freed := Released(s, data);
    if Idle(freed.lanes[data.lane]) then freed.(lanes := freed.lanes - {data.lane}) else MarkReady(freed, data.lane)
  }

  function DiscardQueued(s: Sched): Sched {
    s.(lanes := map key | key in s.lanes && s.lanes[key].inflight > 0 :: s.lanes[key].(queue := [], ready := false),
       ready := [],
       tracked := map id | id in s.tracked && s.tracked[id].running :: s.tracked[id])
  }

  // ---------- the invariant ----------

  ghost predicate Distinct(keys: seq<LaneKey>) {
    forall i, j | 0 <= i < j < |keys| :: keys[i] != keys[j]
  }

  /** The ready list is duplicate-free and is exactly the lanes that can run. */
  ghost predicate ReadyIsExact(s: Sched) {
    && Distinct(s.ready)
    && (forall key | key in s.ready :: key in s.lanes)
    && forall key | key in s.lanes :: s.lanes[key].ready == CanRun(s.lanes[key]) == (key in s.ready)
  }

  ghost predicate QueuedAreWaiting(s: Sched) {
    forall key, e | key in s.lanes && e in s.lanes[key].queue ::
      e.id in s.tracked && !s.tracked[e.id].running && s.tracked[e.id].entry == e && s.tracked[e.id].data.lane == key
  }

  ghost predicate TrackedArePlaced(s: Sched) {
    forall id | id in s.tracked ::
      var held := s.tracked[id];
      && held.data.id == id && held.entry.id == id && held.entry.seqNo <= s.lastSeq
      && held.data.lane in s.lanes
      && (held.running || held.entry in s.lanes[held.data.lane].queue)
  }

  ghost predicate SeqNosDiffer(s: Sched) {
    forall a, b | a in s.tracked && b in s.tracked && s.tracked[a].entry.seqNo == s.tracked[b].entry.seqNo :: a == b
  }

  function Running(s: Sched, key: LaneKey): set<JobId> {
    set id | id in s.tracked && s.tracked[id].running && s.tracked[id].data.lane == key
  }

  /** Each lane's count is its running jobs, within a limit that is not zero; queues are in order; no lane is idle. */
  ghost predicate LaneIsExact(s: Sched, limits: Limits, key: LaneKey)
    requires key in s.lanes
  {
    var lane := s.lanes[key];
    && IsSorted(lane.queue)
    && lane.inflight == |Running(s, key)|
    && lane.limit == limits(key) && (lane.limit != 0 ==> lane.inflight <= lane.limit)
    && (lane.queue != [] || lane.inflight > 0)
  }

  ghost predicate LanesAreExact(s: Sched, limits: Limits) {
    forall key {:trigger LaneIsExact(s, limits, key)} | key in s.lanes :: LaneIsExact(s, limits, key)
  }

  ghost predicate HeldIsExact(s: Sched, limits: Limits) {
    QueuedAreWaiting(s) && TrackedArePlaced(s) && SeqNosDiffer(s) && LanesAreExact(s, limits)
  }

  ghost predicate Valid(s: Sched, limits: Limits) {
    ReadyIsExact(s) && HeldIsExact(s, limits)
  }

  lemma ValidCanRun(s: Sched)
    requires ReadyIsExact(s)
    ensures AllCanRun(s.lanes, s.ready)
  {
  }

  // ---------- every operation keeps it ----------

  /** The ready list is exact but for lane `key`, which may be missing from it. */
  ghost predicate ReadyButFor(s: Sched, key: LaneKey) {
    && key in s.lanes && Distinct(s.ready)
    && (forall k | k in s.ready :: k in s.lanes)
    && (forall k | k in s.lanes && k != key :: s.lanes[k].ready == CanRun(s.lanes[k]) == (k in s.ready))
    && s.lanes[key].ready == (key in s.ready) && (s.lanes[key].ready ==> CanRun(s.lanes[key]))
  }

  lemma MarkReadyIsExact(s: Sched, limits: Limits, key: LaneKey)
    requires ReadyButFor(s, key) && HeldIsExact(s, limits)
    ensures Valid(MarkReady(s, key), limits)
  {
    var t := MarkReady(s, key);
    forall k | k in t.lanes ensures LaneIsExact(t, limits, k) {
      assert LaneIsExact(s, limits, k) && Running(t, k) == Running(s, k);
    }
  }

  lemma EnteredIsWaiting(s: Sched, limits: Limits, data: JobData)
    requires QueuedAreWaiting(s) && TrackedArePlaced(s) && data.id !in s.tracked
    ensures QueuedAreWaiting(Entered(s, limits, data)) && TrackedArePlaced(Entered(s, limits, data))
  {
    var t := Entered(s, limits, data);
    InsertMembers(LaneFor(s, limits, data.lane).queue, EntryFor(s, data));
    forall key, e | key in t.lanes && e in t.lanes[key].queue
      ensures e.id in t.tracked && !t.tracked[e.id].running && t.tracked[e.id].entry == e && t.tracked[e.id].data.lane == key
    {
      if e != EntryFor(s, data) { assert e in s.lanes[key].queue; }
    }
  }

  lemma EnteredSeqNo(s: Sched, limits: Limits, data: JobData)
    requires TrackedArePlaced(s) && SeqNosDiffer(s) && data.id !in s.tracked
    ensures SeqNosDiffer(Entered(s, limits, data))
  {
  }

  lemma EnteredLane(s: Sched, limits: Limits, data: JobData)
    requires Valid(s, limits) && data.id !in s.tracked
    ensures LanesAreExact(Entered(s, limits, data), limits)
  {
    var t := Entered(s, limits, data);
    var queue := LaneFor(s, limits, data.lane).queue;
    assert NewSeqNo(queue, EntryFor(s, data));
    if data.lane in s.lanes { assert LaneIsExact(s, limits, data.lane); } else { assert Running(s, data.lane) == {}; }
    InsertKeepsSorted(queue, EntryFor(s, data));
    InsertMembers(queue, EntryFor(s, data));
    forall k | k in t.lanes ensures LaneIsExact(t, limits, k) {
      assert Running(t, k) == Running(s, k);
      if k != data.lane { assert LaneIsExact(s, limits, k); }
    }
  }

  lemma EnteredReady(s: Sched, limits: Limits, data: JobData)
    requires ReadyIsExact(s)
    ensures ReadyButFor(Entered(s, limits, data), data.lane)
  {
  }

  lemma RefreshKeepsPlaces(s: Sched, data: JobData)
    requires QueuedAreWaiting(s) && TrackedArePlaced(s) && SeqNosDiffer(s) && ReadyIsExact(s)
    requires Outdated(s, data) && s.tracked[data.id].data.lane == data.lane
    ensures var t := Refreshed(s, data); QueuedAreWaiting(t) && TrackedArePlaced(t) && SeqNosDiffer(t) && ReadyIsExact(t)
  {
    var t := Refreshed(s, data);
    assert forall id | id in s.tracked ::
        t.tracked[id].entry == s.tracked[id].entry && t.tracked[id].running == s.tracked[id].running && t.tracked[id].data.lane == s.tracked[id].data.lane;
    forall key, e | key in t.lanes && e in t.lanes[key].queue
      ensures e.id in t.tracked && !t.tracked[e.id].running && t.tracked[e.id].entry == e && t.tracked[e.id].data.lane == key
    {
      assert e in s.lanes[key].queue;
    }
  }

  lemma RefreshKeepsLanes(s: Sched, limits: Limits, data: JobData)
    requires LanesAreExact(s, limits) && Outdated(s, data) && s.tracked[data.id].data.lane == data.lane
    ensures LanesAreExact(Refreshed(s, data), limits)
  {
    var t := Refreshed(s, data);
    forall k | k in t.lanes ensures LaneIsExact(t, limits, k) {
      assert LaneIsExact(s, limits, k) && Running(t, k) == Running(s, k);
    }
  }

  lemma EnqueueKeepsValid(s: Sched, limits: Limits, data: JobData)
    requires Valid(s, limits)
    requires data.id in s.tracked ==> s.tracked[data.id].data.lane == data.lane
    ensures Valid(Enqueue(s, limits, data), limits)
  {
    if data.id !in s.tracked {
      EnteredIsWaiting(s, limits, data);
      EnteredSeqNo(s, limits, data);
      EnteredLane(s, limits, data);
      EnteredReady(s, limits, data);
      MarkReadyIsExact(Entered(s, limits, data), limits, data.lane);
    } else if Outdated(s, data) {
      RefreshKeepsPlaces(s, data);
      RefreshKeepsLanes(s, limits, data);
    }
  }

  lemma RemoveAt(keys: seq<LaneKey>, i: nat)
    requires Distinct(keys) && i < |keys|
    ensures Distinct(keys[..i] + keys[i + 1..])
    ensures forall k :: k in keys[..i] + keys[i + 1..] <==> k in keys && k != keys[i]
  {
    var rest := keys[..i] + keys[i + 1..];
    forall k | k in keys && k != keys[i] ensures k in rest {
      var j :| 0 <= j < |keys| && keys[j] == k;
      assert rest[if j < i then j else j - 1] == k;
    }
  }

  lemma TakenReady(s: Sched, i: nat)
    requires ReadyIsExact(s) && i < |s.ready|
    ensures AllCanRun(s.lanes, s.ready) && ReadyButFor(Taken(s, i), s.ready[i])
  {
    RemoveAt(s.ready, i);
  }

  lemma TakenPlaces(s: Sched, i: nat)
    requires QueuedAreWaiting(s) && TrackedArePlaced(s) && SeqNosDiffer(s) && AllCanRun(s.lanes, s.ready) && i < |s.ready|
    requires IsSorted(s.lanes[s.ready[i]].queue)
    ensures var t := Taken(s, i); QueuedAreWaiting(t) && TrackedArePlaced(t) && SeqNosDiffer(t)
  {
    var t := Taken(s, i);
    var key := s.ready[i];
    var queue := s.lanes[key].queue;
    var first := queue[0];
    assert first in queue;
    assert queue == [first] + queue[1..];
    assert first !in queue[1..];
    forall k, e | k in t.lanes && e in t.lanes[k].queue
      ensures e.id in t.tracked && !t.tracked[e.id].running && t.tracked[e.id].entry == e && t.tracked[e.id].data.lane == k
    {
      assert e in s.lanes[k].queue;
    }
    forall id | id in t.tracked && !t.tracked[id].running
      ensures t.tracked[id].entry in t.lanes[t.tracked[id].data.lane].queue
    {
      assert id != first.id && t.tracked[id] == s.tracked[id];
    }
  }

  lemma TakenLanes(s: Sched, limits: Limits, i: nat)
    requires LanesAreExact(s, limits) && QueuedAreWaiting(s) && i < |s.ready| && AllCanRun(s.lanes, s.ready)
    ensures LanesAreExact(Taken(s, i), limits)
  {
    var t := Taken(s, i);
    var key := s.ready[i];
    var first := s.lanes[key].queue[0];
    assert first in s.lanes[key].queue;
    forall k | k in t.lanes ensures LaneIsExact(t, limits, k) {
      assert LaneIsExact(s, limits, k);
      if k == key {
        assert Running(t, k) == Running(s, k) + {first.id} && first.id !in Running(s, k);
      } else {
        assert Running(t, k) == Running(s, k);
      }
    }
  }

  lemma ServeKeepsValid(s: Sched, limits: Limits, i: nat)
    requires Valid(s, limits) && i < |s.ready|
    ensures AllCanRun(s.lanes, s.ready) && Valid(Serve(s, i), limits)
  {
    TakenReady(s, i);
    assert LaneIsExact(s, limits, s.ready[i]);
    TakenPlaces(s, i);
    TakenLanes(s, limits, i);
    MarkReadyIsExact(Taken(s, i), limits, s.ready[i]);
  }

  lemma TryNextKeepsValid(s: Sched, limits: Limits)
    requires Valid(s, limits)
    ensures AllCanRun(s.lanes, s.ready) && Valid(TryNext(s).0, limits)
  {
    ValidCanRun(s);
    if s.ready != [] {
      ServeKeepsValid(s, limits, BestIndex(s.lanes, s.ready));
    }
  }

  /** The job was taken by `TryNext` and not released since. */
  predicate IsRunning(s: Sched, data: JobData) {
    data.id in s.tracked && s.tracked[data.id].running && s.tracked[data.id].data == data
  }

  lemma ReleasedPlaces(s: Sched, data: JobData)
    requires QueuedAreWaiting(s) && TrackedArePlaced(s) && SeqNosDiffer(s) && IsRunning(s, data)
    ensures var t := Released(s, data); QueuedAreWaiting(t) && TrackedArePlaced(t) && SeqNosDiffer(t)
  {
    var t := Released(s, data);
    forall k, e | k in t.lanes && e in t.lanes[k].queue
      ensures e.id in t.tracked && !t.tracked[e.id].running && t.tracked[e.id].entry == e && t.tracked[e.id].data.lane == k
    {
      assert e in s.lanes[k].queue;
    }
  }

  lemma ReleasedRunning(s: Sched, limits: Limits, data: JobData)
    requires LanesAreExact(s, limits) && IsRunning(s, data) && data.lane in s.lanes
    ensures var t := Released(s, data);
            && (forall key | key in t.lanes && key != data.lane :: LaneIsExact(t, limits, key))
            && t.lanes[data.lane].inflight == |Running(t, data.lane)| && s.lanes[data.lane].inflight == t.lanes[data.lane].inflight + 1
            && (!Idle(t.lanes[data.lane].(ready := false)) ==> LaneIsExact(t, limits, data.lane))
  {
    var t := Released(s, data);
    assert LaneIsExact(s, limits, data.lane);
    assert Running(t, data.lane) == Running(s, data.lane) - {data.id} && data.id in Running(s, data.lane);
    forall key | key in t.lanes && key != data.lane ensures LaneIsExact(t, limits, key) {
      assert LaneIsExact(s, limits, key) && Running(t, key) == Running(s, key);
    }
  }

  lemma DoneKeepsValid(s: Sched, limits: Limits, data: JobData)
    requires Valid(s, limits) && IsRunning(s, data)
    ensures Valid(Done(s, data), limits)
  {
    var freed := Released(s, data);
    ReleasedPlaces(s, data);
    ReleasedRunning(s, limits, data);
    if Idle(freed.lanes[data.lane]) {
      RemoveIdleLane(freed, limits, data.lane);
      assert ReadyIsExact(Done(s, data));
    } else {
      assert ReadyButFor(freed, data.lane);
      MarkReadyIsExact(freed, limits, data.lane);
    }
  }

  lemma RemoveIdleLane(s: Sched, limits: Limits, lane: LaneKey)
    requires QueuedAreWaiting(s) && TrackedArePlaced(s) && SeqNosDiffer(s)
    requires lane in s.lanes && Idle(s.lanes[lane]) && Running(s, lane) == {}
    requires forall key | key in s.lanes && key != lane :: LaneIsExact(s, limits, key)
    ensures HeldIsExact(s.(lanes := s.lanes - {lane}), limits)
  {
    var t := s.(lanes := s.lanes - {lane});
    forall id | id in t.tracked ensures t.tracked[id].data.lane != lane {
      assert id !in Running(s, lane);
    }
    forall key | key in t.lanes ensures LaneIsExact(t, limits, key) {
      assert LaneIsExact(s, limits, key) && Running(t, key) == Running(s, key);
    }
    forall k, e | k in t.lanes && e in t.lanes[k].queue
      ensures e.id in t.tracked && !t.tracked[e.id].running && t.tracked[e.id].entry == e && t.tracked[e.id].data.lane == k
    {
      assert e in s.lanes[k].queue;
    }
  }

  lemma DiscardPlaces(s: Sched, limits: Limits)
    requires QueuedAreWaiting(s) && TrackedArePlaced(s) && SeqNosDiffer(s) && LanesAreExact(s, limits)
    ensures var t := DiscardQueued(s); QueuedAreWaiting(t) && TrackedArePlaced(t) && SeqNosDiffer(t)
  {
    var t := DiscardQueued(s);
    forall id | id in t.tracked ensures t.tracked[id].data.lane in t.lanes {
      var lane := s.tracked[id].data.lane;
      assert LaneIsExact(s, limits, lane);
      assert id in Running(s, lane);
    }
  }

  lemma DiscardKeepsValid(s: Sched, limits: Limits)
    requires Valid(s, limits)
    ensures Valid(DiscardQueued(s), limits)
  {
    var t := DiscardQueued(s);
    DiscardPlaces(s, limits);
    forall key | key in t.lanes ensures LaneIsExact(t, limits, key) {
      assert LaneIsExact(s, limits, key) && Running(t, key) == Running(s, key);
    }
  }

  // ---------- one round of the compaction loop ----------

  lemma RunnableStep(lanes: map<LaneKey, Lane>, ready: seq<LaneKey>, i: nat)
    requires i < |ready| && forall key | key in ready :: key in lanes
    ensures Runnable(lanes, ready[..i + 1]) == Runnable(lanes, ready[..i]) + if CanRun(lanes[ready[i]]) then [ready[i]] else []
  {
    assert ready[..i + 1][..i] == ready[..i];
  }

  lemma UnmarkedStep(lanes: map<LaneKey, Lane>, ready: seq<LaneKey>, i: nat)
    requires i < |ready| && forall key | key in ready :: key in lanes
    ensures var key, was := ready[i], Unmarked(lanes, ready[..i]);
            && was[key].queue == lanes[key].queue && CanRun(was[key]) == CanRun(lanes[key])
            && Unmarked(lanes, ready[..i + 1]) == if CanRun(lanes[key]) then was else was[key := was[key].(ready := false)]
  {
    assert ready[..i + 1] == ready[..i] + [ready[i]];
  }

  lemma BestStep(lanes: map<LaneKey, Lane>, runnable: seq<LaneKey>, key: LaneKey)
    requires AllCanRun(lanes, runnable) && key in lanes && CanRun(lanes[key])
    ensures BestIndex(lanes, runnable + [key])
            == if runnable == [] || HeadPriority(lanes, key) > HeadPriority(lanes, runnable[BestIndex(lanes, runnable)]) then |runnable| else BestIndex(lanes, runnable)
  {
    assert (runnable + [key])[..|runnable|] == runnable;
  }

  lemma CompactionIsIdle(s: Sched)
    requires ReadyIsExact(s)
    ensures AllCanRun(s.lanes, s.ready) && Unmarked(s.lanes, s.ready) == s.lanes && Runnable(s.lanes, s.ready) == s.ready
  {
  }

  // ---------- the waiting jobs of a lane, and one round of the discard loop ----------

  function WaitingIn(s: Sched, keys: set<LaneKey>): set<JobId> {
    set id | id in s.tracked && !s.tracked[id].running && s.tracked[id].data.lane in keys
  }

  function IdsOf(queue: seq<Entry>): set<JobId> {
    set e | e in queue :: e.id
  }

  lemma QueueIsWaiting(s: Sched, key: LaneKey)
    requires QueuedAreWaiting(s) && TrackedArePlaced(s) && key in s.lanes
    ensures IdsOf(s.lanes[key].queue) == WaitingIn(s, {key})
  {
    forall id | id in WaitingIn(s, {key}) ensures id in IdsOf(s.lanes[key].queue) {
      assert s.tracked[id].entry in s.lanes[key].queue;
    }
  }

  lemma {:induction false} QueueSize(queue: seq<Entry>)
    requires forall i, j | 0 <= i < j < |queue| :: queue[i].id != queue[j].id
    ensures |IdsOf(queue)| == |queue|
  {
    if queue != [] {
      QueueSize(queue[1..]);
      assert queue == [queue[0]] + queue[1..];
      assert IdsOf(queue) == {queue[0].id} + IdsOf(queue[1..]);
      assert queue[0].id !in IdsOf(queue[1..]) by {
        forall e | e in queue[1..] ensures e.id != queue[0].id {
          var i :| 0 <= i < |queue[1..]| && queue[1..][i] == e;
          assert queue[i + 1] == e;
        }
      }
    }
  }

  /** A lane's queue is as long as it has waiting jobs. */
  lemma LaneLength(s: Sched, limits: Limits, key: LaneKey)
    requires Valid(s, limits) && key in s.lanes
    ensures |s.lanes[key].queue| == |WaitingIn(s, {key})|
  {
    var queue := s.lanes[key].queue;
    assert LaneIsExact(s, limits, key);
    forall i, j | 0 <= i < j < |queue| ensures queue[i].id != queue[j].id {
      assert Before(queue[i], queue[j]) && queue[i] in queue && queue[j] in queue;
      assert s.tracked[queue[i].id].entry == queue[i] && s.tracked[queue[j].id].entry == queue[j];
    }
    QueueSize(queue);
    QueueIsWaiting(s, key);
  }

  /** The state when the discard loop has emptied the lanes in `done`. */
  function Discarded(s: Sched, done: set<LaneKey>): Sched {
    s.(lanes := map key | key in s.lanes && (key !in done || s.lanes[key].inflight > 0) ::
                  if key in done then s.lanes[key].(queue := [], ready := false) else s.lanes[key],
       tracked := map id | id in s.tracked && (s.tracked[id].running || s.tracked[id].data.lane !in done) :: s.tracked[id])
  }

  lemma DiscardStep(s: Sched, limits: Limits, done: set<LaneKey>, key: LaneKey)
    requires Valid(s, limits) && key in s.lanes && key !in done
    ensures var was, now := Discarded(s, done), Discarded(s, done + {key});
            && key in was.lanes && was.lanes[key] == s.lanes[key]
            && now.tracked == was.tracked - IdsOf(s.lanes[key].queue)
            && now.lanes == if s.lanes[key].inflight == 0 then was.lanes - {key} else was.lanes[key := s.lanes[key].(queue := [], ready := false)]
  {
    QueueIsWaiting(s, key);
  }

  lemma DiscardEnds(s: Sched)
    requires TrackedArePlaced(s)
    ensures Discarded(s, s.lanes.Keys).(ready := []) == DiscardQueued(s)
    ensures Discarded(s, {}) == s
  {
  }

  lemma WaitingSplits(s: Sched, limits: Limits, done: set<LaneKey>, key: LaneKey)
    requires Valid(s, limits) && key in s.lanes && key !in done
    ensures |WaitingIn(s, done + {key})| == |WaitingIn(s, done)| + |s.lanes[key].queue|
  {
    LaneLength(s, limits, key);
    assert WaitingIn(s, done + {key}) == WaitingIn(s, done) + WaitingIn(s, {key});
    assert WaitingIn(s, done) !! WaitingIn(s, {key});
  }

  lemma WaitingEnds(s: Sched)
    requires TrackedArePlaced(s)
    ensures WaitingIn(s, {}) == {} && WaitingIn(s, s.lanes.Keys) == set id | id in s.tracked && !s.tracked[id].running
  {
  }
}
