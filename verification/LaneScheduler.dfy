/**
  The scheduler object: its fields change in place, its methods follow the functions of `Lanes`.
  A lane holds its waiting jobs as a heap; the specification sees them as the sorted list.
 */
module LaneScheduler {
  import opened Types
  import opened JobQueue
  import L = Lanes

  /** A lane of the object. */
  datatype Slot = Slot(heap: seq<Entry>, inflight: nat, limit: nat, ready: bool)

  function LaneOf(slot: Slot): L.Lane {
    L.Lane(Sorted(slot.heap), slot.inflight, slot.limit, slot.ready)
  }

  function LanesOf(slots: map<L.LaneKey, Slot>): map<L.LaneKey, L.Lane> {
    map key | key in slots :: LaneOf(slots[key])
  }

  ghost predicate AllQueues(slots: map<L.LaneKey, Slot>) {
    forall key | key in slots :: IsQueue(slots[key].heap)
  }

  predicate CanRun(slot: Slot) {
    |slot.heap| > 0 && (slot.limit == 0 || slot.inflight < slot.limit)
  }

  lemma SlotCanRun(slot: Slot)
    ensures CanRun(slot) == L.CanRun(LaneOf(slot))
  {
    SortedLength(slot.heap);
  }

  lemma WithSlot(slots: map<L.LaneKey, Slot>, key: L.LaneKey, slot: Slot)
    ensures LanesOf(slots[key := slot]) == LanesOf(slots)[key := LaneOf(slot)]
    ensures AllQueues(slots) && IsQueue(slot.heap) ==> AllQueues(slots[key := slot])
  {
  }

  lemma WithoutSlot(slots: map<L.LaneKey, Slot>, key: L.LaneKey)
    ensures LanesOf(slots - {key}) == LanesOf(slots) - {key}
    ensures AllQueues(slots) ==> AllQueues(slots - {key})
  {
  }

  lemma SlotHead(slots: map<L.LaneKey, Slot>, key: L.LaneKey)
    requires AllQueues(slots) && key in slots && CanRun(slots[key])
    ensures L.CanRun(LanesOf(slots)[key]) && L.HeadPriority(LanesOf(slots), key) == slots[key].heap[0].priority
  {
    SlotCanRun(slots[key]);
    HeadIsRoot(slots[key].heap);
  }

  /** Drops the lanes that can not run from the ready list and finds the best of the rest. */
  method Compact(slots: map<L.LaneKey, Slot>, ready: seq<L.LaneKey>)
    returns (slots': map<L.LaneKey, Slot>, ready': seq<L.LaneKey>, best: int)
    requires AllQueues(slots) && forall key | key in ready :: key in slots
    ensures AllQueues(slots') && LanesOf(slots') == L.Unmarked(LanesOf(slots), ready) && ready' == L.Runnable(LanesOf(slots), ready)
    ensures best == if ready' == [] then -1 else L.BestIndex(LanesOf(slots), ready')
  {
    ghost var lanes := LanesOf(slots);
    slots', ready', best := slots, [], -1;
    var bestPriority := 0;
    for i := 0 to |ready|
      invariant AllQueues(slots') && LanesOf(slots') == L.Unmarked(lanes, ready[..i]) && ready' == L.Runnable(lanes, ready[..i])
      invariant best == if ready' == [] then -1 else L.BestIndex(lanes, ready')
      invariant best >= 0 ==> bestPriority == L.HeadPriority(lanes, ready'[best])
    {
      var key := ready[i];
      L.RunnableStep(lanes, ready, i);
      L.UnmarkedStep(lanes, ready, i);
      assert key in LanesOf(slots');
      SlotCanRun(slots'[key]);
      if !CanRun(slots'[key]) {
        WithSlot(slots', key, slots'[key].(ready := false));
        slots' := slots'[key := slots'[key].(ready := false)];
        continue;
      }
      L.BestStep(lanes, ready', key);
      SlotHead(slots', key);
      var priority := slots'[key].heap[0].priority;
      if best < 0 || priority > bestPriority {
        best, bestPriority := |ready'|, priority;
      }
      ready' := ready' + [key];
    }
    assert ready[..|ready|] == ready;
  }

  class Scheduler {
    var slots: map<L.LaneKey, Slot>
    var ready: seq<L.LaneKey>
    var tracked: map<JobId, L.Held>
    var lastSeq: nat
    /** The one-slot wake channel: full or empty. */
    var wake: bool
    const limits: L.Limits

    function State(): L.Sched
      reads this
    {
      L.Sched(LanesOf(slots), ready, tracked, lastSeq)
    }

    ghost predicate Valid()
      reads this
    {
      AllQueues(slots) && L.Valid(State(), limits)
    }

    constructor (limits: L.Limits)
      ensures Valid() && State() == L.NewSched && !wake && this.limits == limits
    {
      slots, ready, tracked, lastSeq, wake := map[], [], map[], 0, false;
      this.limits := limits;
    }

    method MarkReady(key: L.LaneKey)
      requires key in slots && AllQueues(slots)
      modifies this`slots, this`ready
      ensures AllQueues(slots) && State() == L.MarkReady(old(State()), key)
    {
      SlotCanRun(slots[key]);
      if !slots[key].ready && CanRun(slots[key]) {
        WithSlot(slots, key, slots[key].(ready := true));
        slots := slots[key := slots[key].(ready := true)];
        ready := ready + [key];
      }
    }

    /** A full slot keeps its token; an empty one receives it. */
    method Signal()
      modifies this`wake
      ensures wake
    {
      if !wake {
        wake := true;
      }
    }

    /** Puts a job that is not held into its lane. */
    method Enter(data: L.JobData, slot: Slot, entry: Entry)
      requires AllQueues(slots) && IsQueue(slot.heap) && NewSeqNo(slot.heap, entry)
      requires LaneOf(slot) == L.LaneFor(State(), limits, data.lane) && entry == L.EntryFor(State(), data)
      modifies this
      ensures AllQueues(slots) && State() == L.MarkReady(L.Entered(old(State()), limits, data), data.lane) && wake
    {
      var heap := Push(slot.heap, entry);
      WithSlot(slots, data.lane, slot.(heap := heap));
      tracked := tracked[data.id := L.Held(data, entry, false)];
      lastSeq := lastSeq + 1;
      slots := slots[data.lane := slot.(heap := heap)];
      MarkReady(data.lane);
      Signal();
    }

    method Enqueue(data: L.JobData) returns (added: bool)
      requires Valid()
      requires data.id in tracked ==> tracked[data.id].data.lane == data.lane
      modifies this
      ensures Valid() && State() == L.Enqueue(old(State()), limits, data)
      ensures added == (data.id !in old(tracked)) && wake == (old(wake) || added)
    {
      L.EnqueueKeepsValid(State(), limits, data);
      if data.id in tracked {
        var held := tracked[data.id];
        if !held.running && data.retries > held.data.retries {
          tracked := tracked[data.id := held.(data := data)];
        }
        return false;
      }
      var entry := Entry(data.id, data.priority, lastSeq + 1);
      var slot := if data.lane in slots then slots[data.lane] else Slot([], 0, limits(data.lane), false);
      IsNew(State(), limits, slots, slot, data.lane, entry);
      Enter(data, slot, entry);
      return true;
    }

    method IsHeld(data: L.JobData) returns (held: bool)
      requires Valid()
      ensures held == L.IsHeld(State(), data)
    {
      held := data.id in tracked && (tracked[data.id].running || tracked[data.id].data.retries >= data.retries);
    }

    /** Hands out the next job of the lane at place `i` of the ready list. */
    method Take(i: nat) returns (entry: Entry)
      requires AllQueues(slots) && i < |ready| && L.AllCanRun(LanesOf(slots), ready)
      modifies this`slots, this`ready, this`tracked
      ensures AllQueues(slots) && State() == L.Serve(old(State()), i) && entry == old(LanesOf(slots)[ready[i]]).queue[0]
    {
      var key := ready[i];
      var slot := slots[key];
      SlotCanRun(slot);
      var heap;
      entry, heap := Pop(slot.heap);
      ready := ready[..i] + ready[i + 1..];
      WithSlot(slots, key, slot.(ready := false, heap := heap, inflight := slot.inflight + 1));
      slots := slots[key := slot.(ready := false, heap := heap, inflight := slot.inflight + 1)];
      if entry.id in tracked {
        tracked := tracked[entry.id := tracked[entry.id].(running := true)];
      }
      MarkReady(key);
    }

    method TakeBest() returns (entry: Option<Entry>)
      requires AllQueues(slots) && L.AllCanRun(LanesOf(slots), ready)
      requires L.Unmarked(LanesOf(slots), ready) == LanesOf(slots) && L.Runnable(LanesOf(slots), ready) == ready
      modifies this`slots, this`ready, this`tracked
      ensures AllQueues(slots) && (State(), entry) == L.TryNext(old(State()))
    {
      var best;
      slots, ready, best := Compact(slots, ready);
      if best < 0 {
        return None;
      }
      var taken := Take(best);
      return Some(taken);
    }

    /** The job of highest priority among the lanes with room, the lane nearest the front among equals. */
    method TryNext() returns (next: Option<L.JobData>)
      requires Valid()
      modifies this`slots, this`ready, this`tracked
      ensures Valid() && L.AllCanRun(LanesOf(old(slots)), old(ready))
      ensures State() == L.TryNext(old(State())).0
      ensures match L.TryNext(old(State())).1
              case None => next == None
              case Some(e) => e.id in old(tracked) && next == Some(old(tracked[e.id]).data)
    {
      L.TryNextKeepsValid(State(), limits);
      L.CompactionIsIdle(State());
      ghost var s := State();
      var entry := TakeBest();
      if entry.None? {
        return None;
      }
      ghost var key := s.ready[L.BestIndex(s.lanes, s.ready)];
      assert s.lanes[key].queue[0] in s.lanes[key].queue;
      next := Some(tracked[entry.value.id].data);
    }

    method Release(data: L.JobData)
      requires AllQueues(slots)
      modifies this
      ensures AllQueues(slots) && State() == L.Done(old(State()), data) && wake
    {
      tracked := tracked - {data.id};
      if data.lane in slots {
        var slot := slots[data.lane];
        if slot.inflight > 0 {
          slot := slot.(inflight := slot.inflight - 1);
        }
        WithSlot(slots, data.lane, slot);
        slots := slots[data.lane := slot];
        SortedLength(slot.heap);
        if |slot.heap| == 0 && slot.inflight == 0 && !slot.ready {
          WithoutSlot(slots, data.lane);
          slots := slots - {data.lane};
        } else {
          MarkReady(data.lane);
        }
      }
      Signal();
    }

    /** Must be called once per job taken. */
    method Done(data: L.JobData)
      requires Valid() && L.IsRunning(State(), data)
      modifies this
      ensures Valid() && State() == L.Done(old(State()), data) && wake
    {
      L.DoneKeepsValid(State(), limits, data);
      Release(data);
    }

    /** The number of jobs waiting in all lanes. */
    method QueuedLen() returns (queued: nat)
      requires Valid()
      ensures queued == |set id | id in tracked && !tracked[id].running|
    {
      queued := 0;
      var todo := slots.Keys;
      ghost var done: set<L.LaneKey> := {};
      L.WaitingEnds(State());
      while todo != {}
        invariant todo + done == slots.Keys && todo !! done
        invariant queued == |L.WaitingIn(State(), done)|
        decreases |todo|
      {
        var key :| key in todo;
        L.WaitingSplits(State(), limits, done, key);
        SortedLength(slots[key].heap);
        queued := queued + |slots[key].heap|;
        todo, done := todo - {key}, done + {key};
      }
      assert done == State().lanes.Keys;
    }

    /** Drops every waiting job; running jobs still release their slot through `Done`. */
    method DiscardQueued()
      requires Valid()
      modifies this`slots, this`ready, this`tracked
      ensures Valid() && State() == L.DiscardQueued(old(State()))
    {
      ghost var s := State();
      L.DiscardEnds(s);
      L.DiscardKeepsValid(s, limits);
      slots, tracked := DiscardLanes(slots, tracked, s, limits);
      ready := [];
    }
  }

  /** The next number is new to the lane. */
  lemma IsNew(s: L.Sched, limits: L.Limits, slots: map<L.LaneKey, Slot>, slot: Slot, key: L.LaneKey, entry: Entry)
    requires L.Valid(s, limits) && s.lanes == LanesOf(slots) && entry.seqNo == s.lastSeq + 1
    requires slot.heap == if key in slots then slots[key].heap else []
    ensures NewSeqNo(slot.heap, entry)
  {
    forall x | x in slot.heap ensures x.seqNo != entry.seqNo {
      SortedMultiset(slot.heap);
      assert x in multiset(Sorted(slot.heap));
      assert x in s.lanes[key].queue;
    }
  }

  /** Takes a queue apart job by job, forgetting each job. */
  method Forget(heap: seq<Entry>, tracked: map<JobId, L.Held>) returns (rest: map<JobId, L.Held>)
    requires IsQueue(heap)
    ensures rest == tracked - L.IdsOf(Sorted(heap))
  {
    rest := tracked;
    var left := heap;
    ghost var queue, n := Sorted(heap), 0;
    while |left| > 0
      invariant IsQueue(left) && 0 <= n <= |queue| && Sorted(left) == queue[n..] && rest == tracked - L.IdsOf(queue[..n])
      decreases |queue| - n
    {
      SortedLength(left);
      var job;
      job, left := Pop(left);
      ForgetStep(queue, n);
      rest := rest - {job.id};
      n := n + 1;
    }
    assert queue[..n] == queue;
  }

  /** Empties one lane, and drops it when it has no running jobs. */
  method DiscardLane(slots: map<L.LaneKey, Slot>, tracked: map<JobId, L.Held>, key: L.LaneKey)
    returns (slots': map<L.LaneKey, Slot>, tracked': map<JobId, L.Held>)
    requires AllQueues(slots) && key in slots
    ensures AllQueues(slots')
    ensures var lane := LaneOf(slots[key]);
            && tracked' == tracked - L.IdsOf(lane.queue)
            && LanesOf(slots') == if lane.inflight == 0 then LanesOf(slots) - {key} else LanesOf(slots)[key := lane.(queue := [], ready := false)]
  {
    var slot := slots[key];
    tracked' := Forget(slot.heap, tracked);
    slot := slot.(heap := [], ready := false);
    if slot.inflight == 0 {
      WithoutSlot(slots, key);
      slots' := slots - {key};
    } else {
      WithSlot(slots, key, slot);
      slots' := slots[key := slot];
    }
  }

  /** The lanes `done` of `s` are discarded. */
  ghost predicate AreDiscarded(s: L.Sched, done: set<L.LaneKey>, slots: map<L.LaneKey, Slot>, tracked: map<JobId, L.Held>) {
    AllQueues(slots) && s.(lanes := LanesOf(slots), tracked := tracked) == L.Discarded(s, done)
  }

  method DiscardNext(slots: map<L.LaneKey, Slot>, tracked: map<JobId, L.Held>, key: L.LaneKey,
                     ghost s: L.Sched, ghost limits: L.Limits, ghost done: set<L.LaneKey>)
    returns (slots': map<L.LaneKey, Slot>, tracked': map<JobId, L.Held>)
    requires AreDiscarded(s, done, slots, tracked) && L.Valid(s, limits) && key in s.lanes && key !in done
    ensures AreDiscarded(s, done + {key}, slots', tracked')
  {
    L.DiscardStep(s, limits, done, key);
    assert key in LanesOf(slots);
    slots', tracked' := DiscardLane(slots, tracked, key);
  }

  method DiscardLanes(slots: map<L.LaneKey, Slot>, tracked: map<JobId, L.Held>, ghost s: L.Sched, ghost limits: L.Limits)
    returns (slots': map<L.LaneKey, Slot>, tracked': map<JobId, L.Held>)
    requires AreDiscarded(s, {}, slots, tracked) && L.Valid(s, limits) && slots.Keys == s.lanes.Keys
    ensures AreDiscarded(s, s.lanes.Keys, slots', tracked')
  {
    slots', tracked' := slots, tracked;
    var todo := slots.Keys;
    ghost var done: set<L.LaneKey> := {};
    while todo != {}
      invariant todo + done == s.lanes.Keys && todo !! done
      invariant AreDiscarded(s, done, slots', tracked')
      decreases |todo|
    {
      var key :| key in todo;
      slots', tracked' := DiscardNext(slots', tracked', key, s, limits, done);
      todo, done := todo - {key}, done + {key};
    }
    assert done == s.lanes.Keys;
  }

  lemma ForgetStep(queue: seq<Entry>, n: nat)
    requires n < |queue|
    ensures L.IdsOf(queue[..n + 1]) == L.IdsOf(queue[..n]) + {queue[n].id}
  {
    assert queue[..n + 1] == queue[..n] + [queue[n]];
  }
}
