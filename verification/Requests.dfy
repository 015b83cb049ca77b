/**
 What the store's calls write, said over the fields of the requests: enqueue, replay and
 tick create runs, a deploy writes jobs, a heartbeat a runner and its leases, a cancel
 ends a run or asks for its end; and what each call refuses.
 */
module Requests {
  import opened Domain
  import opened Schedule
  import opened Transitions
  import opened Invariant
  import opened Steps
  import opened Traces
  import opened HealthHistory
  import opened Eligibility
  import opened Service

  // ----- Enqueue -----

  /** An unexpired key stands for a run that is still there. */
  predicate Remembered(s: MemoryState, scope: string, now: Millis) {
    scope in s.runKeys && s.runKeys[scope].expiresAt > now && s.runKeys[scope].runId in s.runs
  }

  /** The state with one more run, under the next id. */
  predicate OneMoreRun(s: MemoryState, t: MemoryState, run: Run) {
    && run.id == s.ids + 1 && run.id !in s.runs
    && t == s.(ids := run.id, runs := s.runs[run.id := run], runKeys := t.runKeys)
  }

  /** An enqueue is refused exactly for a missing or disabled job or one of another project
      or deploy; answers the remembered run when there is one; and otherwise adds a queued
      run of the job, due after the delay it asks for, and remembers its key for a day. */
  lemma EnqueueAnswersExactly(s: MemoryState, p: EnqueueParams, now: Millis)
    requires Inv(s)
    ensures var o := Enqueue(s, p, now);
      && (o.result == Err(JobNotFound) <==> p.jobId !in s.jobs)
      && (o.result == Err(JobDisabled) <==> p.jobId in s.jobs && !s.jobs[p.jobId].enabled)
      && (o.result == Err(JobMismatch) <==>
            && p.jobId in s.jobs && s.jobs[p.jobId].enabled
            && (s.jobs[p.jobId].projectId != p.projectId || s.jobs[p.jobId].deployId != p.deployId))
      && (o.result.Err? ==> o.next == s && o.result.error in {JobNotFound, JobDisabled, JobMismatch})
      && (o.result.Ok? ==>
            var scope := p.projectId + ":" + p.jobId + ":" + if p.key.Some? then p.key.value else "";
            if p.key.Some? && Remembered(s, scope, now) then
              o.next == s && o.result.value == EnqueueResult(s.runs[s.runKeys[scope].runId], true)
            else
              var run := Run(s.ids + 1, p.projectId, p.jobId, p.deployId, TriggerType.Enqueued, Queued, 0,
                             s.jobs[p.jobId].retries + 1, now, None,
                             if p.delayMs.Some? then Some(now + p.delayMs.value) else None, None, None);
              && OneMoreRun(s, o.next, run) && o.result.value == EnqueueResult(run, false)
              && o.next.runKeys == if p.key.Some? then s.runKeys[scope := RunKey(run.id, now, now + 86_400_000)] else s.runKeys)
  {
    hide RunsOk, AttemptsOk, LeasesOk, Numbered, HealthKeyed;
    if p.key.Some? { assert KeyScope(p.projectId, p.jobId, p.key.value) == p.projectId + ":" + p.jobId + ":" + p.key.value; }
  }

  // ----- A delayed run waits -----

  /** Step `i` creates the run by an enqueue with the delay. */
  predicate EnqueuedWithDelay(tr: Trace, i: nat, r: Id, delayMs: int)
    requires i < |tr.events| && |tr.states| == |tr.events| + 1
  {
    && tr.events[i].step.EnqueueStep? && tr.events[i].step.enqueue.delayMs == Some(delayMs)
    && var o := Enqueue(tr.states[i], tr.events[i].step.enqueue, tr.events[i].now);
       o.result.Ok? && !o.result.value.deduped && o.result.value.run.id == r
  }

  /** A run's first attempt opens where its attempt count leaves zero. */
  lemma FirstAttemptIsAStart(tr: Trace, k: nat, r: Id)
    requires IsTrace(tr) && k < |tr.events| && r in tr.states[k].runs && tr.states[k].runs[r].attemptCount == 0
    requires r in tr.states[k + 1].runs && tr.states[k + 1].runs[r].attemptCount > 0
    ensures StartsRunAt(tr, k, r)
  {
    hide Inv, Apply, Enabled;
    AttemptsAreNumbered(tr, k + 1, r, 1);
    var s, t := tr.states[k], tr.states[k + 1];
    var a :| a in t.attempts && t.attempts[a].runId == r && t.attempts[a].number == 1;
    if a in s.attempts {
      OneStep(tr, k);
      SameSlotBefore(s, t, a);
      AttemptsAreNumbered(tr, k, r, 1);
    }
  }

  lemma SameSlotBefore(s: MemoryState, t: MemoryState, a: Id)
    requires Evolves(s, t) && a in s.attempts
    ensures a in t.attempts && SameSlot(s.attempts[a], t.attempts[a])
  {
    assert AttemptEvolves(s.attempts[a], t.attempts[a]);
  }

  lemma RunBefore(s: MemoryState, t: MemoryState, r: Id)
    requires Evolves(s, t) && r in s.runs
    ensures r in t.runs && RunEvolves(s.runs[r], t.runs[r])
  {}

  /** Until the delay is over the run is as it was created, or canceled. */
  lemma {:induction false} DelayedRunWaits(tr: Trace, i: nat, k: nat, r: Id, delayMs: int)
    requires IsTrace(tr) && i < k < |tr.states| && EnqueuedWithDelay(tr, i, r, delayMs)
    ensures r in tr.states[k].runs
    ensures var run := tr.states[k].runs[r];
      || (run.status.Queued? && run.attemptCount == 0 && run.retryAfter == Some(tr.events[i].now + delayMs))
      || run.status.Terminal()
      || tr.events[i].now + delayMs <= tr.events[k - 1].now
    decreases k
  {
    hide Inv, Apply, Enabled, Evolves, NewRecords;
    OneStep(tr, k - 1);
    if k == i + 1 {
      EnqueueAnswersExactly(tr.states[i], tr.events[i].step.enqueue, tr.events[i].now);
      EnqueueStepApplies(tr, i);
    } else {
      DelayedRunWaits(tr, i, k - 1, r, delayMs);
      assert tr.events[k - 2].now <= tr.events[k - 1].now;
      var s, t := tr.states[k - 1], tr.states[k];
      RunBefore(s, t, r);
      RunsAreOk(s, r);
      RunsAreOk(t, r);
      if s.runs[r].status.Queued? && s.runs[r].attemptCount == 0 && s.runs[r].retryAfter.Some? && t.runs[r].attemptCount > 0 {
        FirstAttemptIsAStart(tr, k - 1, r);
        RetryTimesAreRespected(tr, k - 1, k - 1, r);
      }
    }
  }

  lemma EnqueueStepApplies(tr: Trace, i: nat)
    requires i < |tr.events| && |tr.states| == |tr.events| + 1 && StepAt(tr, i) && tr.events[i].step.EnqueueStep?
    ensures tr.states[i + 1] == Enqueue(tr.states[i], tr.events[i].step.enqueue, tr.events[i].now).next
  {
    hide Enqueue;
  }

  lemma RunsAreOk(s: MemoryState, r: Id)
    requires Inv(s) && r in s.runs
    ensures RunOk(s, s.runs[r])
  {}

  /** A run enqueued with a delay is not started before the delay is over. */
  lemma DelayIsRespected(tr: Trace, i: nat, k: nat, r: Id, delayMs: int)
    requires IsTrace(tr) && i < k < |tr.events| && EnqueuedWithDelay(tr, i, r, delayMs) && StartsRunAt(tr, k, r)
    ensures tr.events[i].now + delayMs <= tr.events[k].now
  {
    hide Inv, Apply, Enabled, Obstacle;
    DelayedRunWaits(tr, i, k, r, delayMs);
    assert tr.events[k - 1].now <= tr.events[k].now;
    var run := tr.states[k].runs[r];
    if run.status.Queued? && run.retryAfter.Some? {
      RetryTimesAreRespected(tr, k, k, r);
    } else if run.status.Terminal() {
      StartedRunsHadNoObstacle(tr, k, r);
      TerminalRunsStayThroughRecovery(tr, k, r);
    }
  }

  lemma TerminalRunsStayThroughRecovery(tr: Trace, k: nat, r: Id)
    requires IsTrace(tr) && k < |tr.events| && r in tr.states[k].runs && tr.states[k].runs[r].status.Terminal()
    ensures var t := Recover(tr.states[k], tr.events[k].now); r in t.runs && t.runs[r].status.Terminal()
  {
    hide Inv, Recover, Apply, Enabled;
    ReachableStatesAreLinked(tr, k);
    RecoverEvolves(tr.states[k], tr.events[k].now);
    assert RunEvolves(tr.states[k].runs[r], Recover(tr.states[k], tr.events[k].now).runs[r]);
  }

  // ----- Replay and ticks -----

  /** A replay adds a fresh queued run for the same job and deploy, with as many attempts,
      due at once, that names the run it repeats. */
  lemma ReplayAnswersExactly(s: MemoryState, sourceId: Id, now: Millis)
    requires Inv(s)
    ensures var o := Replay(s, sourceId, now);
      if sourceId !in s.runs then o == Outcome(s, Err(RunNotFound))
      else
        var source := s.runs[sourceId];
        var run := Run(s.ids + 1, source.projectId, source.jobId, source.deployId, TriggerType.Replayed, Queued, 0,
                       source.maxAttempts, now, None, None, None, Some(sourceId));
        OneMoreRun(s, o.next, run) && o.next.runKeys == s.runKeys && o.result == Ok(run)
  {
    hide RunsOk, AttemptsOk, LeasesOk, Numbered, HealthKeyed;
  }

  /** The run that a schedule makes for the job. */
  predicate FromSchedule(run: Run, job: Job) {
    && job.enabled && job.scheduleExpr.Some?
    && run == Run(run.id, job.projectId, job.id, job.deployId, TriggerType.Scheduled, Queued, 0, job.retries + 1,
                  run.scheduledAt, None, None, None, None)
  }

  lemma {:induction false} ScheduleRunsMakes(s: MemoryState, job: Job, due: seq<Millis>, r: Id)
    requires Inv(s) && job.id in s.jobs && job.enabled && job.scheduleExpr.Some?
    requires r in ScheduleRuns(s, job, due).runs && r !in s.runs
    ensures FromSchedule(ScheduleRuns(s, job, due).runs[r], job)
    decreases |due|
  {
    hide Inv, AlreadyScheduled;
    if due != [] {
      var t := ScheduleRuns(s, job, due[..|due| - 1]);
      if r in t.runs {
        ScheduleRunsMakes(s, job, due[..|due| - 1], r);
        ScheduleRunsKeepsInv(s, job, due[..|due| - 1]);
        ScheduleRunsAdds(t, job, [due[|due| - 1]]);
        OneMoreDue(s, job, due);
      }
    }
  }

  lemma OneMoreDue(s: MemoryState, job: Job, due: seq<Millis>)
    requires due != []
    ensures ScheduleRuns(s, job, due) == ScheduleRuns(ScheduleRuns(s, job, due[..|due| - 1]), job, [due[|due| - 1]])
  {
    var t, one := ScheduleRuns(s, job, due[..|due| - 1]), [due[|due| - 1]];
    assert one[..0] == [] && ScheduleRuns(t, job, one[..0]) == t;
  }

  /** Every run that a tick adds is a fresh queued run of an enabled job with a schedule,
      for that job's deploy and with its attempts. */
  lemma {:induction false} TickMakes(zones: ZoneDb, s: MemoryState, order: seq<string>, now: Millis, r: Id)
    requires Inv(s) && now < I64_MAX && (forall n :: 0 <= n < |order| ==> order[n] in s.jobs && HasSchedule(s.jobs[order[n]]))
    requires r in Tick(zones, s, order, now).next.runs && r !in s.runs
    ensures var run := Tick(zones, s, order, now).next.runs[r]; run.jobId in s.jobs && FromSchedule(run, s.jobs[run.jobId])
    decreases |order|
  {
    if order != [] {
      var init, jobId := order[..|order| - 1], order[|order| - 1];
      var before := Tick(zones, s, init, now).next;
      TickKeepsInv(zones, s, init, now);
      assert Keyed(s) && s.jobs[jobId].id == jobId;
      if Tick(zones, s, order, now).next != before {
        var due := JobDue(zones, before, s.jobs[jobId], now).value;
        ScheduleRunsAdds(before, s.jobs[jobId], due);
        if r !in before.runs { ScheduleRunsMakes(before, s.jobs[jobId], due, r); }
      }
      if r in before.runs { TickMakes(zones, s, init, now, r); }
    }
  }

  // ----- Deploys and runners -----

  /** The job that an entry of a deploy describes. */
  predicate DescribedBy(job: Job, p: JobParams, projectId: string, deployId: Id, now: Millis) {
    && job.id == p.id && job.projectId == projectId && job.deployId == deployId
    && job.scheduleExpr == p.scheduleExpr && job.retries == p.retries && job.rateLimitSpec == p.rateLimitSpec
    && job.concurrencyLimit == p.concurrencyLimit && job.cpuCores == p.cpuCores && job.memoryMb == p.memoryMb
    && job.computeClass == p.computeClass && job.enabled && job.createdAt == now
  }

  /** A deploy into a known project writes the job that the last entry for its id
      describes, enabled, under a fresh deploy id; the jobs it does not name stay. */
  lemma DeployAnswersExactly(s: MemoryState, projectId: string, params: seq<JobParams>, now: Millis, id: string)
    ensures var o := RegisterDeploy(s, projectId, params, now);
      if projectId !in s.projects then o == Outcome(s, Err(ProjectNotFound))
      else
        && o.result == Ok(s.ids + 1) && o.next == s.(ids := s.ids + 1, jobs := o.next.jobs)
        && if Replaced(params, id) then
             exists n :: Stays(params, n) && params[n].id == id
                         && id in o.next.jobs && DescribedBy(o.next.jobs[id], params[n], projectId, s.ids + 1, now)
           else (id in o.next.jobs <==> id in s.jobs) && (id in s.jobs ==> o.next.jobs[id] == s.jobs[id])
  {
    hide InsertJobs, Stays, Replaced;
    if Replaced(params, id) {
      var n := LastEntryStays(s.jobs, params, projectId, s.ids + 1, now, id);
    } else {
      NotNamedStays(s.jobs, params, projectId, s.ids + 1, now, id);
    }
  }

  predicate RunnerAsReported(runner: Runner, p: RunnerParams, now: Millis) {
    && runner.id == p.runnerId && runner.computeClass == p.computeClass
    && runner.cpuCores == p.cpuCores && runner.memoryMb == p.memoryMb
    && runner.maxConcurrentLeases == p.maxConcurrentLeases && runner.heartbeatTimeoutSecs == p.heartbeatTimeoutSecs
    && runner.lastHeartbeatAt == now
  }

  /** The listed lease can not be renewed: it does not exist or is another runner's. */
  predicate NotRenewable(leases: map<Id, Lease>, id: Id, runnerId: string) { id !in leases || leases[id].runnerId != runnerId }

  /** The open leases among the listed ones expire then; nothing else has changed. */
  predicate Renewed(before: map<Id, Lease>, after: map<Id, Lease>, ids: seq<Id>, expiresAt: Millis) {
    && after.Keys == before.Keys
    && forall l :: l in before ==>
         after[l] == if l in ids && before[l].ackedAt.None? && before[l].releasedAt.None?
                     then before[l].(expiresAt := expiresAt) else before[l]
  }

  lemma {:induction false} RenewLeasesRenews(leases: map<Id, Lease>, ids: seq<Id>, runnerId: string, expiresAt: Millis, n: nat)
    requires n <= |ids| && (forall i :: 0 <= i < n ==> !NotRenewable(leases, ids[i], runnerId))
    requires n < |ids| ==> NotRenewable(leases, ids[n], runnerId)
    ensures var (after, error) := RenewLeases(leases, ids, runnerId, expiresAt);
      && Renewed(leases, after, ids[..n], expiresAt)
      && error == if n == |ids| then None else if ids[n] in leases then Some(LeaseNotOwned) else Some(LeaseNotFound)
    decreases |ids|
  {
    if n > 0 {
      var next, rest := RenewLease(leases, ids[0], expiresAt), ids[1..];
      assert forall i :: 0 <= i < |rest| ==> rest[i] == ids[i + 1];
      assert forall l :: NotRenewable(next, l, runnerId) <==> NotRenewable(leases, l, runnerId);
      RenewLeasesRenews(next, rest, runnerId, expiresAt, n - 1);
      assert ids[..n] == [ids[0]] + rest[..n - 1];
    }
  }

  /** A heartbeat stores the runner as it reports itself, seen now, and renews its listed
      leases up to the first that is unknown or another runner's, which it reports. */
  lemma HeartbeatAnswersExactly(s: MemoryState, p: RunnerParams, ttlSecs: nat, ids: seq<Id>, now: Millis, n: nat)
    requires n <= |ids| && (forall i :: 0 <= i < n ==> !NotRenewable(s.leases, ids[i], p.runnerId))
    requires n < |ids| ==> NotRenewable(s.leases, ids[n], p.runnerId)
    ensures var o := Heartbeat(s, p, ttlSecs, ids, now);
      && o.next == s.(runners := o.next.runners, leases := o.next.leases)
      && p.runnerId in o.next.runners && o.next.runners == s.runners[p.runnerId := o.next.runners[p.runnerId]]
      && RunnerAsReported(o.next.runners[p.runnerId], p, now)
      && Renewed(s.leases, o.next.leases, ids[..n], SatAdd(now, ttlSecs * 1_000))
      && o.result == if n == |ids| then Ok(o.next.runners[p.runnerId])
                     else if ids[n] in s.leases then Err(LeaseNotOwned) else Err(LeaseNotFound)
  {
    hide RenewLeases, Renewed, NotRenewable;
    RenewLeasesRenews(s.leases, ids, p.runnerId, SatAdd(now, ttlSecs * 1_000), n);
  }

  /** So does a registration, without leases. */
  lemma RegistrationWrites(s: MemoryState, p: RunnerParams, now: Millis)
    ensures var t := RegisterRunner(s, p, now);
      && t == s.(runners := t.runners)
      && p.runnerId in t.runners && t.runners == s.runners[p.runnerId := t.runners[p.runnerId]]
      && RunnerAsReported(t.runners[p.runnerId], p, now)
  {}

  // ----- Cancel -----

  /** A cancel ends a queued run at once. On a running one it only marks the attempt that
      runs and its lease. It refuses a run that is unknown or over. */
  lemma CancelAnswersExactly(s: MemoryState, r: Id, at: Millis)
    requires Inv(s)
    ensures var o := Cancel(s, r, at);
      && (r !in s.runs ==> o == Outcome(s, Err(RunNotFound)))
      && (r in s.runs && s.runs[r].status.Terminal() ==> o == Outcome(s, Err(RunFinished)))
      && (r in s.runs && s.runs[r].status.Queued? ==>
            && o.next == s.(runs := s.runs[r := s.runs[r].(status := Canceled, failureClass := None,
                                                           retryAfter := None, waitingFor := None)])
            && o.result == Ok(o.next.runs[r]))
      && (r in s.runs && s.runs[r].status.Running? ==>
            exists a ::
              && a in s.attempts && RunsFor(s.attempts[a], r)
              && s.attempts[a].leaseId.Some? && s.attempts[a].leaseId.value in s.leases
              && var l := s.attempts[a].leaseId.value;
                 && o.next == s.(runs := s.runs[r := s.runs[r].(failureClass := None)],
                                 attempts := s.attempts[a := s.attempts[a].(cancelRequestedAt := Some(at))],
                                 leases := s.leases[l := s.leases[l].(revokeRequestedAt := Some(at))])
                 && o.result == Ok(o.next.runs[r]))
  {
    hide FindRunning, RunsFor;
    if r in s.runs && s.runs[r].status.Running? {
      RunningIsFound(s, r);
      var a := FindRunning(s, r, s.ids + 1).value;
      assert a in s.attempts && RunsFor(s.attempts[a], r);
      assert AttemptOk(s, s.attempts[a]);
    }
  }

  lemma RunningIsFound(s: MemoryState, r: Id)
    requires Inv(s) && r in s.runs && s.runs[r].status.Running?
    ensures FindRunning(s, r, s.ids + 1).Some?
  {
    RunningHasAttempt(s, r);
  }

  // ----- What a completion refuses -----

  /** The reasons in their order: an unknown or finished attempt, a requested cancellation
      not honoured, another runner's attempt, a lease that has run out. */
  lemma CompletionRefusesExactly(s: MemoryState, p: CompleteParams, hash: nat, now: Millis)
    requires Inv(s) && SpecsParse(s) && p.status.Terminal()
    ensures var o := Complete(s, p, hash, now);
      if p.attemptId !in s.attempts then o == Outcome(s, Err(AttemptNotFound))
      else
        var attempt := s.attempts[p.attemptId];
        if !attempt.status.AttemptRunning? then o == Outcome(s, Err(AttemptFinished))
        else if attempt.cancelRequestedAt.Some? && !p.status.AttemptCanceled? then o == Outcome(s, Err(CancelRequested))
        else if attempt.runnerId != Some(p.runnerId) then o == Outcome(s, Err(RunnerMismatch))
        else if !Unexpired(s, attempt, now) then o == Outcome(s, Err(LeaseInvalid))
        else o.result.Ok?
  {
    hide AckAttempt;
    CompletionIsFenced(s, p, hash, now);
    if p.attemptId in s.attempts { assert AttemptOk(s, s.attempts[p.attemptId]); }
  }
}
