/**
  Pruning deletes on the strength of an earlier read. "Dispatched, every job DELIVERED,
  nothing parked" is stable under every step of the protocol, so the late delete is safe.
 */
module PruneSafety {
  import opened Types
  import opened Transactions
  import opened Protocol
  import opened Placement

  lemma DispatchIgnoresPruneReads(s: System, u: System, message: MessageId, entries: seq<JobEntry>, snapshot: set<Scope>, now: Time)
    requires u == s.(pruneReads := u.pruneReads)
    ensures DoDispatch(u, message, entries, snapshot, now) == DoDispatch(s, message, entries, snapshot, now).(pruneReads := u.pruneReads)
  {
    assert FreshJobs(u, message, entries) == FreshJobs(s, message, entries);
    var result := DispatchMessageWithParking(s.db, message, Split(snapshot, entries, false), Split(snapshot, entries, true), now);
    if FreshJobs(s, message, entries) && result.Some? {
      var t := s.(db := result.value, created := s.created + PairsById(entries), believedPaused := s.believedPaused + snapshot);
      assert DoDispatch(s, message, entries, snapshot, now) == t;
      assert DoDispatch(u, message, entries, snapshot, now) == t.(pruneReads := u.pruneReads);
    }
  }

  lemma PruningIgnoresMoreReads(cfg: Config, s: System, messages: set<MessageId>, extra: set<MessageId>)
    requires messages <= s.pruneReads
    ensures var u := s.(pruneReads := s.pruneReads + extra);
            Do(cfg, u, PruneDelete(messages)).db == Do(cfg, s, PruneDelete(messages)).db && Do(cfg, u, PruneDelete(messages)).pruneReads == u.pruneReads
  {
  }

  lemma OthersIgnorePruneReads(cfg: Config, s: System, step: Step, extra: set<MessageId>)
    requires !step.Dispatch? && !step.PruneDelete?
    ensures Do(cfg, s.(pruneReads := s.pruneReads + extra), step).db == Do(cfg, s, step).db
    ensures s.pruneReads + extra <= Do(cfg, s.(pruneReads := s.pruneReads + extra), step).pruneReads
  {
  }

  lemma PruneReadsGuardOnlyPruning(cfg: Config, s: System, step: Step, extra: set<MessageId>)
    requires !step.PruneDelete? || step.messages <= s.pruneReads
    ensures Do(cfg, s.(pruneReads := s.pruneReads + extra), step).db == Do(cfg, s, step).db
    ensures s.pruneReads + extra <= Do(cfg, s.(pruneReads := s.pruneReads + extra), step).pruneReads
  {
    var u := s.(pruneReads := s.pruneReads + extra);
    if step.Dispatch? {
      DispatchIgnoresPruneReads(s, u, step.message, step.entries, step.snapshot, step.now);
    } else if step.PruneDelete? {
      PruningIgnoresMoreReads(cfg, s, step.messages, extra);
    } else {
      OthersIgnorePruneReads(cfg, s, step, extra);
    }
  }

  lemma StepKeepsDelivered(cfg: Config, s: System, step: Step, message: MessageId)
    requires Inv(s) && CompletelyDelivered(s.db, message)
    ensures var t := Do(cfg, s, step); message in t.db.messages ==> CompletelyDelivered(t.db, message)
  {
    var u := s.(pruneReads := s.pruneReads + {message});
    FrameKeepsInv(s, u);
    StepKeepsInv(cfg, u, step);
    if !step.PruneDelete? || step.messages <= s.pruneReads {
      PruneReadsGuardOnlyPruning(cfg, s, step, {message});
    }
  }

  lemma {:induction false} RunKeepsDelivered(cfg: Config, s: System, steps: seq<Step>, message: MessageId)
    requires Inv(s) && message in s.usedMessages && (message in s.db.messages ==> CompletelyDelivered(s.db, message))
    ensures var t := Exec(cfg, s, steps); message in t.db.messages ==> CompletelyDelivered(t.db, message)
    decreases |steps|
  {
    if steps != [] {
      var t := Do(cfg, s, steps[0]);
      StepKeepsInv(cfg, s, steps[0]);
      if message in s.db.messages {
        StepKeepsDelivered(cfg, s, steps[0], message);
      } else {
        DeletedStaysDeleted(cfg, s, steps[0], message);
      }
      RunKeepsDelivered(cfg, t, steps[1..], message);
    }
  }

  lemma DispatchCreatesNoMessage(s: System, message: MessageId, entries: seq<JobEntry>, snapshot: set<Scope>, now: Time)
    ensures var t := DoDispatch(s, message, entries, snapshot, now); t.db.messages.Keys == s.db.messages.Keys && t.usedMessages == s.usedMessages
  {
  }

  lemma RewritesKeepMessages(cfg: Config, s: System, step: Step)
    requires RewritesJobs(step)
    ensures Do(cfg, s, step).db.messages == s.db.messages && Do(cfg, s, step).usedMessages == s.usedMessages
  {
  }

  lemma InsertKeepsMessages(db: Db, entries: seq<JobEntry>)
    requires InsertJobs(db, entries).Some?
    ensures InsertJobs(db, entries).value.messages == db.messages
  {
  }

  lemma CommitKeepsMessages(s: System, page: seq<ParkedEntry>, earliest: Time, now: Time)
    ensures var t := WithDb(s, CommitDrainPage(s.db, page, earliest, now)); t.db.messages == s.db.messages && t.usedMessages == s.usedMessages
  {
    if CommitDrainPage(s.db, page, earliest, now).Some? {
      InsertKeepsMessages(s.db.(parked := s.db.parked - SeqNos(page)), DrainedEntries(page, earliest, now));
    }
  }

  lemma ReparkKeepsMessages(s: System, id: JobId, now: Time)
    ensures var t := WithDb(s, ReparkQueuedJob(s.db, id, now)); t.db.messages == s.db.messages && t.usedMessages == s.usedMessages
  {
  }

  lemma OthersKeepMessages(cfg: Config, s: System, step: Step)
    requires step.DeleteDead? || step.DeleteAllDead? || step.BeginDrain? || step.PauseScope? || step.ResumeScope? || step.PruneRead?
    ensures Do(cfg, s, step).db.messages == s.db.messages && Do(cfg, s, step).usedMessages == s.usedMessages
  {
  }

  lemma DeletedStaysDeleted(cfg: Config, s: System, step: Step, message: MessageId)
    requires message in s.usedMessages && message !in s.db.messages
    ensures message !in Do(cfg, s, step).db.messages && message in Do(cfg, s, step).usedMessages
  {
    if step.Dispatch? {
      DispatchCreatesNoMessage(s, step.message, step.entries, step.snapshot, step.now);
    } else if RewritesJobs(step) {
      RewritesKeepMessages(cfg, s, step);
    } else if step.Repark? {
      ReparkKeepsMessages(s, step.id, step.now);
    } else if step.CommitDrain? {
      if step.tx in s.drains { CommitKeepsMessages(s.(drains := s.drains - {step.tx}), s.drains[step.tx], step.earliest, step.now); }
    } else if !step.CreateMessage? && !step.PruneDelete? {
      OthersKeepMessages(cfg, s, step);
    }
  }

  /**
    Messages read as completely delivered, deleted after any further steps of any nodes: every
    job row the delete takes is DELIVERED, and no parked row refers to a deleted message.
   */
  lemma LateDeleteIsSafe(cfg: Config, s: System, steps: seq<Step>, messages: set<MessageId>)
    requires Reachable(cfg, s) && forall m | m in messages :: CompletelyDelivered(s.db, m)
    ensures var t := Exec(cfg, s, steps);
            && (forall id | id in JobsOf(t.db, messages) :: t.db.jobs[id].status == Delivered)
            && (forall k | k in t.db.parked :: t.db.parked[k].message !in messages)
  {
    ReachableInv(cfg, s);
    var t := Exec(cfg, s, steps);
    RunKeepsInv(cfg, s, steps);
    forall id | id in JobsOf(t.db, messages) ensures t.db.jobs[id].status == Delivered {
      RunKeepsDelivered(cfg, s, steps, t.db.jobs[id].message);
    }
    forall k | k in t.db.parked ensures t.db.parked[k].message !in messages {
      if t.db.parked[k].message in messages {
        RunKeepsDelivered(cfg, s, steps, t.db.parked[k].message);
      }
    }
  }
}
