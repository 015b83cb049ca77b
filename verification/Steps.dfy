/**
 One step of the store, with the time the store reads for it, and what a step can do to
 the records: which fields never change, which statuses are final, what only goes down.
 */
module Steps {
  import opened Domain
  import opened RateLimit
  import opened RetryPolicy
  import opened Schedule
  import opened Transitions
  import opened Invariant

  /** The calls that change the store. Choices the code leaves to hash-map order are
      part of the step: the pick of a lease scan, the order of a tick. */
  datatype Step =
    | InsertProject(projectId: string)
    | Deploy(projectId: string, params: seq<JobParams>)
    | RegisterRunnerStep(runner: RunnerParams)
    | HeartbeatStep(runner: RunnerParams, ttlSecs: nat, active: seq<Id>)
    | EnqueueStep(enqueue: EnqueueParams)
    | ReplayStep(sourceId: Id)
    | LeaseStep(runnerId: string, leaseTtlSecs: nat, pick: Pick)
    | CompleteStep(complete: CompleteParams, hash: nat)
    | CancelStep(runId: Id)
    | RecoverStep
    | TickStep(order: seq<string>)

  datatype Event = Event(now: Millis, step: Step)

  function Apply(zones: ZoneDb, s: MemoryState, e: Event): MemoryState {
    match e.step
    case InsertProject(projectId) => s.(projects := s.projects + {projectId})
    case Deploy(projectId, params) => RegisterDeploy(s, projectId, params, e.now).next
    case RegisterRunnerStep(runner) => RegisterRunner(s, runner, e.now)
    case HeartbeatStep(runner, ttlSecs, active) => Heartbeat(s, runner, ttlSecs, active, e.now).next
    case EnqueueStep(p) => Enqueue(s, p, e.now).next
    case ReplayStep(sourceId) => Replay(s, sourceId, e.now).next
    case LeaseStep(runnerId, ttlSecs, pick) => LeaseNext(s, runnerId, ttlSecs, e.now, pick).next
    case CompleteStep(p, hash) => Complete(s, p, hash, e.now).next
    case CancelStep(runId) => Cancel(s, runId, e.now).next
    case RecoverStep => Recover(s, e.now)
    case TickStep(order) => if e.now < I64_MAX then Tick(zones, s, order, e.now).next else s
  }

  /** What the callers see to: the service lets only parseable rate-limit specs through,
      and gum's runner reports only terminal statuses, which nobody checks. The rest pins
      the choices a step names to those the code can make. */
  ghost predicate Enabled(s: MemoryState, e: Event) {
    match e.step
    case Deploy(_, params) =>
      forall i :: 0 <= i < |params| ==> Parses(params[i].rateLimitSpec)
    case LeaseStep(runnerId, _, pick) =>
      LeasePickAllowed(s, runnerId, e.now, pick)
    case CompleteStep(p, _) => p.status.Terminal()
    case TickStep(order) => e.now < I64_MAX && TickOrder(s, order)
    case _ => true
  }

  lemma {:induction false} InsertJobsParse(jobs: map<string, Job>, params: seq<JobParams>, projectId: string, deployId: Id, now: Millis)
    requires JobsParse(jobs)
    requires forall i :: 0 <= i < |params| ==> Parses(params[i].rateLimitSpec)
    ensures JobsParse(InsertJobs(jobs, params, projectId, deployId, now))
    decreases |params|
  {
    if params != [] {
      var init, last := params[..|params| - 1], params[|params| - 1];
      InsertJobsParse(jobs, init, projectId, deployId, now);
      assert Parses(last.rateLimitSpec);
    }
  }

  // ----- What a step leaves alone -----

  /** Everything but runs, run keys, health and the progress of attempts and leases. */
  ghost predicate Quiet(s: MemoryState, t: MemoryState) {
    && t.runners == s.runners && t.jobs == s.jobs
    && s.leases.Keys <= t.leases.Keys
    && forall l :: l in s.leases ==> t.leases[l].expiresAt == s.leases[l].expiresAt
  }

  lemma CompleteIsQuiet(s: MemoryState, p: CompleteParams, hash: nat, now: Millis)
    ensures var t := Complete(s, p, hash, now).next;
      Quiet(s, t) && t.runKeys == s.runKeys && t.attempts.Keys == s.attempts.Keys
  {
    hide ComputeDisposition, AfterSignal, ParseRateLimitSpec, AckAttempt, Preflight, Quiet;
    if Preflight(s, p, now).None? {
      AckIsQuiet(s, p, now);
      QuietThen(s, AckAttempt(s, p, now), Complete(s, p, hash, now).next);
    } else {
      QuietThen(s, s, s);
    }
  }

  lemma AckIsQuiet(s: MemoryState, p: CompleteParams, now: Millis)
    requires Preflight(s, p, now).None?
    ensures var t := AckAttempt(s, p, now);
      Quiet(s, t) && t.runKeys == s.runKeys && t.attempts.Keys == s.attempts.Keys
  {}

  lemma QuietThen(s: MemoryState, t: MemoryState, u: MemoryState)
    requires s == t || Quiet(s, t)
    requires u.runners == t.runners && u.jobs == t.jobs && u.leases == t.leases
    ensures Quiet(s, u)
  {}

  lemma LeaseIsQuiet(s: MemoryState, runnerId: string, ttlSecs: nat, now: Millis, pick: Pick)
    requires Inv(s)
    ensures var t := LeaseNext(s, runnerId, ttlSecs, now, pick).next;
      Quiet(s, t) && t.runKeys == s.runKeys && t.health == s.health
  {
    hide RunnerFull, Lost;
    var r := Recover(s, now);
    assert Quiet(s, r);
  }

  lemma CancelIsQuiet(s: MemoryState, runId: Id, now: Millis)
    ensures var t := Cancel(s, runId, now).next;
      Quiet(s, t) && t.runKeys == s.runKeys && t.health == s.health && t.attempts.Keys == s.attempts.Keys
  {
    hide FindRunning, MarkCancel;
    if runId in s.runs && s.runs[runId].status.Running? && FindRunning(s, runId, s.ids + 1).Some? {
      MarkCancelIsQuiet(s, runId, FindRunning(s, runId, s.ids + 1).value, now);
    }
  }

  lemma MarkCancelIsQuiet(s: MemoryState, runId: Id, a: Id, now: Millis)
    requires runId in s.runs && a in s.attempts
    ensures var t := MarkCancel(s, runId, a, now);
      Quiet(s, t) && t.runKeys == s.runKeys && t.health == s.health && t.attempts.Keys == s.attempts.Keys
  {}

  lemma RecoverIsQuiet(s: MemoryState, now: Millis)
    ensures var t := Recover(s, now);
      Quiet(s, t) && t.runKeys == s.runKeys && t.health == s.health && t.attempts.Keys == s.attempts.Keys
  {
    hide Lost;
  }

  lemma EnqueueIsQuiet(s: MemoryState, p: EnqueueParams, now: Millis)
    ensures var t := Enqueue(s, p, now).next; Quiet(s, t) && t.health == s.health && t.attempts == s.attempts
  {
    hide KeyedRun, EnqueuedRun, KeysAfter;
  }

  /** A tick only adds runs. */
  lemma {:induction false} TickAdds(zones: ZoneDb, s: MemoryState, order: seq<string>, now: Millis)
    requires Inv(s) && now < I64_MAX
    ensures var t := Tick(zones, s, order, now).next;
      && t == s.(ids := t.ids, runs := t.runs)
      && s.ids <= t.ids
      && forall r :: r in s.runs ==> r in t.runs && t.runs[r] == s.runs[r]
    decreases |order|
  {
    if order != [] {
      var init, jobId := order[..|order| - 1], order[|order| - 1];
      TickAdds(zones, s, init, now);
      TickKeepsInv(zones, s, init, now);
      var before := Tick(zones, s, init, now).next;
      if Tick(zones, s, order, now).next != before {
        ScheduleRunsAdds(before, s.jobs[jobId], JobDue(zones, before, s.jobs[jobId], now).value);
      }
    }
  }

  lemma DeployIsQuiet(s: MemoryState, projectId: string, params: seq<JobParams>, now: Millis)
    ensures var t := RegisterDeploy(s, projectId, params, now).next;
      Quiet(s, t.(jobs := s.jobs)) && t.runKeys == s.runKeys && t.health == s.health && t.attempts == s.attempts
  {
    hide InsertJobs;
  }

  lemma ReplayIsQuiet(s: MemoryState, sourceId: Id, now: Millis)
    ensures var t := Replay(s, sourceId, now).next;
      Quiet(s, t) && t.runKeys == s.runKeys && t.health == s.health && t.attempts == s.attempts
  {}

  /** Which steps that are no beat touch jobs, run keys, health and the set of attempts. */
  ghost predicate Touches(s: MemoryState, t: MemoryState, step: Step) {
    && Quiet(s, t.(jobs := s.jobs))
    && (!step.Deploy? ==> t.jobs == s.jobs)
    && (!step.EnqueueStep? ==> t.runKeys == s.runKeys)
    && (!step.CompleteStep? ==> t.health == s.health)
    && (!step.LeaseStep? ==> t.attempts.Keys == s.attempts.Keys)
  }

  lemma StepIsQuiet(zones: ZoneDb, s: MemoryState, e: Event)
    requires Inv(s) && !e.step.HeartbeatStep? && !e.step.RegisterRunnerStep?
    ensures Touches(s, Apply(zones, s, e), e.step)
  {
    hide Complete, LeaseNext, Cancel, Tick, Recover, Enqueue, Replay, RegisterDeploy, Inv;
    match e.step
    case Deploy(projectId, params) => DeployIsQuiet(s, projectId, params, e.now);
    case ReplayStep(sourceId) => ReplayIsQuiet(s, sourceId, e.now);
    case CompleteStep(p, hash) => CompleteIsQuiet(s, p, hash, e.now);
    case LeaseStep(runnerId, ttlSecs, pick) => LeaseIsQuiet(s, runnerId, ttlSecs, e.now, pick);
    case CancelStep(runId) => CancelIsQuiet(s, runId, e.now);
    case RecoverStep => RecoverIsQuiet(s, e.now);
    case EnqueueStep(p) => EnqueueIsQuiet(s, p, e.now);
    case TickStep(order) => if e.now < I64_MAX { TickAdds(zones, s, order, e.now); }
    case _ =>
  }

  /** Only a deploy touches the jobs. */
  lemma StepKeepsJobs(zones: ZoneDb, s: MemoryState, e: Event)
    requires Inv(s) && !e.step.Deploy?
    ensures Apply(zones, s, e).jobs == s.jobs
  {
    hide Inv, Complete, LeaseNext, Cancel, Tick, Recover, Enqueue, Replay, RegisterDeploy, RenewLeases;
    if !e.step.HeartbeatStep? && !e.step.RegisterRunnerStep? {
      StepIsQuiet(zones, s, e);
    }
  }

  /** Only leasing opens attempts. */
  lemma OnlyLeasingAddsAttempts(zones: ZoneDb, s: MemoryState, e: Event)
    requires Inv(s) && !e.step.LeaseStep?
    ensures Apply(zones, s, e).attempts.Keys == s.attempts.Keys
  {
    hide Inv, Complete, LeaseNext, Cancel, Tick, Recover, Enqueue, Replay, RegisterDeploy, RenewLeases;
    if !e.step.HeartbeatStep? && !e.step.RegisterRunnerStep? {
      StepIsQuiet(zones, s, e);
    }
  }

  lemma StepKeepsSpecs(zones: ZoneDb, s: MemoryState, e: Event)
    requires Inv(s) && SpecsParse(s) && Enabled(s, e)
    ensures SpecsParse(Apply(zones, s, e))
  {
    if e.step.Deploy? {
      InsertJobsParse(s.jobs, e.step.params, e.step.projectId, s.ids + 1, e.now);
    } else {
      StepKeepsJobs(zones, s, e);
    }
  }

  /** Every enabled step keeps the invariant. */
  lemma StepKeepsInv(zones: ZoneDb, s: MemoryState, e: Event)
    requires Inv(s) && SpecsParse(s) && Enabled(s, e)
    ensures Inv(Apply(zones, s, e))
  {
    match e.step
    case InsertProject(projectId) => RebindKeepsInv(s, Apply(zones, s, e));
    case Deploy(projectId, params) => RegisterDeployKeepsInv(s, projectId, params, e.now);
    case RegisterRunnerStep(runner) => RebindKeepsInv(s, Apply(zones, s, e));
    case HeartbeatStep(runner, ttlSecs, active) => HeartbeatKeepsInv(s, runner, ttlSecs, active, e.now);
    case EnqueueStep(p) => EnqueueKeepsInv(s, p, e.now);
    case ReplayStep(sourceId) => ReplayKeepsInv(s, sourceId, e.now);
    case LeaseStep(runnerId, ttlSecs, pick) => LeaseNextKeepsInv(s, runnerId, ttlSecs, e.now, pick);
    case CompleteStep(p, hash) => CompleteKeepsInv(s, p, hash, e.now);
    case CancelStep(runId) => CancelKeepsInv(s, runId, e.now);
    case RecoverStep => RecoverKeepsInv(s, e.now);
    case TickStep(order) => TickKeepsInv(zones, s, order, e.now);
  }

  // ----- How records change -----

  /** Falls whenever a run's status changes; 2 * maxAttempts for a run just created. */
  function Rank(run: Run): int {
    if run.status.Queued? then 2 * (run.maxAttempts - run.attemptCount)
    else if run.status.Running? then 2 * (run.maxAttempts - run.attemptCount) + 1
    else 0
  }

  predicate SameProgress(x: Run, y: Run) { x.status == y.status && x.attemptCount == y.attemptCount }

  predicate RunEvolves(x: Run, y: Run) {
    && x.id == y.id && x.projectId == y.projectId && x.jobId == y.jobId && x.deployId == y.deployId
    && x.trigger == y.trigger && x.scheduledAt == y.scheduledAt && x.maxAttempts == y.maxAttempts
    && x.replayOf == y.replayOf
    && x.attemptCount <= y.attemptCount
    && (SameProgress(x, y) || Rank(y) < Rank(x))
    && (x.status.Terminal() ==> y == x)
    && (x.status.Queued? && SameProgress(x, y) ==> y == x)
  }

  predicate AttemptEvolves(x: Attempt, y: Attempt) {
    SameAttempt(x, y) && (x.finishedAt.Some? ==> y == x)
  }

  predicate LeaseEvolves(x: Lease, y: Lease) {
    SameLease(x, y) && (x.releasedAt.Some? ==> y == x)
  }

  /** No record disappears, and each one changes only forwards. */
  ghost predicate Evolves(s: MemoryState, t: MemoryState) {
    && s.ids <= t.ids
    && s.jobs.Keys <= t.jobs.Keys
    && s.runs.Keys <= t.runs.Keys && s.attempts.Keys <= t.attempts.Keys && s.leases.Keys <= t.leases.Keys
    && (forall r {:trigger RunEvolves(s.runs[r], t.runs[r])} :: r in s.runs ==> RunEvolves(s.runs[r], t.runs[r]))
    && (forall a {:trigger AttemptEvolves(s.attempts[a], t.attempts[a])} ::
          a in s.attempts ==> AttemptEvolves(s.attempts[a], t.attempts[a]))
    && (forall l {:trigger LeaseEvolves(s.leases[l], t.leases[l])} ::
          l in s.leases ==> LeaseEvolves(s.leases[l], t.leases[l]))
  }

  lemma SelfEvolves(s: MemoryState)
    ensures Evolves(s, s)
  {}

  lemma EvolvesTransitive(s: MemoryState, t: MemoryState, u: MemoryState)
    requires Evolves(s, t) && Evolves(t, u)
    ensures Evolves(s, u)
  {
    forall r | r in s.runs
      ensures RunEvolves(s.runs[r], u.runs[r])
    {
      assert RunEvolves(s.runs[r], t.runs[r]) && RunEvolves(t.runs[r], u.runs[r]);
    }
    forall a | a in s.attempts
      ensures AttemptEvolves(s.attempts[a], u.attempts[a])
    {
      assert AttemptEvolves(s.attempts[a], t.attempts[a]) && AttemptEvolves(t.attempts[a], u.attempts[a]);
    }
    forall l | l in s.leases
      ensures LeaseEvolves(s.leases[l], u.leases[l])
    {
      assert LeaseEvolves(s.leases[l], t.leases[l]) && LeaseEvolves(t.leases[l], u.leases[l]);
    }
  }

  /** What is new after a step: runs start queued and unattempted, and attempts start
      running at the time of the step. */
  ghost predicate NewRecords(s: MemoryState, t: MemoryState, now: Millis) {
    && (forall r :: r in t.runs && r !in s.runs ==>
          r > s.ids && t.runs[r].status.Queued? && t.runs[r].attemptCount == 0)
    && (forall a :: a in t.attempts && a !in s.attempts ==>
          a > s.ids && t.attempts[a].startedAt == now && t.attempts[a].status.AttemptRunning?)
  }

  lemma RebindEvolves(s: MemoryState, t: MemoryState, now: Millis)
    requires s.ids <= t.ids && s.jobs.Keys <= t.jobs.Keys
    requires t.runs == s.runs && t.attempts == s.attempts && t.leases == s.leases
    ensures Evolves(s, t) && NewRecords(s, t, now)
  {}

  lemma DeployEvolves(s: MemoryState, projectId: string, params: seq<JobParams>, now: Millis)
    requires Inv(s)
    ensures var t := RegisterDeploy(s, projectId, params, now).next; Evolves(s, t) && NewRecords(s, t, now)
  {
    hide Evolves, NewRecords, InsertJobs, Inv;
    if projectId in s.projects {
      DeployKeepsJobKeys(s, projectId, params, now);
      RebindEvolves(s, RegisterDeploy(s, projectId, params, now).next, now);
    } else {
      RebindEvolves(s, s, now);
    }
  }

  lemma DeployKeepsJobKeys(s: MemoryState, projectId: string, params: seq<JobParams>, now: Millis)
    requires Inv(s)
    ensures s.jobs.Keys <= RegisterDeploy(s, projectId, params, now).next.jobs.Keys
  {
    hide RunsOk, AttemptsOk, LeasesOk, Numbered;
    InsertJobsKeyed(s.jobs, params, projectId, s.ids + 1, now);
  }

  lemma TakeAttemptsEvolves(s: MemoryState, taken: set<Id>, now: Millis)
    requires Inv(s)
    requires forall a :: a in taken ==> a in s.attempts && s.attempts[a].status.AttemptRunning?
    ensures Evolves(s, TakeAttempts(s, taken, now)) && NewRecords(s, TakeAttempts(s, taken, now), now)
  {
    var t := TakeAttempts(s, taken, now);
    forall r | r in s.runs
      ensures RunEvolves(s.runs[r], t.runs[r])
    {
      assert RunOk(s, s.runs[r]);
      if RunTaken(s, taken, r) {
        var a :| a in taken && a in s.attempts && s.attempts[a].runId == r;
        assert AttemptOk(s, s.attempts[a]);
      }
    }
    forall a | a in s.attempts
      ensures AttemptEvolves(s.attempts[a], t.attempts[a])
    {
      assert AttemptOk(s, s.attempts[a]);
    }
    forall l | l in s.leases
      ensures LeaseEvolves(s.leases[l], t.leases[l])
    {
      if LeaseTaken(s, taken, l) {
        var a :| a in taken && a in s.attempts && s.attempts[a].leaseId == Some(l);
        assert AttemptOk(s, s.attempts[a]);
      }
    }
  }

  lemma RecoverEvolves(s: MemoryState, now: Millis)
    requires Inv(s)
    ensures Evolves(s, Recover(s, now)) && NewRecords(s, Recover(s, now), now)
  {
    TakeAttemptsEvolves(s, LostAttempts(s, now), now);
  }

  lemma GrantEvolves(s: MemoryState, g: Leased, t: MemoryState)
    requires Inv(s) && GrantFits(s, g) && t == AfterGrant(s, g)
    ensures Evolves(s, t)
  {
    assert RunOk(s, s.runs[g.attempt.runId]);
  }

  lemma LeaseNextEvolves(s: MemoryState, runnerId: string, ttlSecs: nat, now: Millis, pick: Pick)
    requires Inv(s)
    requires LeasePickAllowed(s, runnerId, now, pick)
    ensures Evolves(s, LeaseNext(s, runnerId, ttlSecs, now, pick).next)
    ensures NewRecords(s, LeaseNext(s, runnerId, ttlSecs, now, pick).next, now)
  {
    hide Evolves, Recover, RunnerFull, Inv;
    var t := Recover(s, now);
    RecoverEvolves(s, now);
    RecoverKeepsInv(s, now);
    RecoverAddsNothing(s, now);
    if runnerId in t.runners && !RunnerFull(t, runnerId) && pick.PickRun? {
      var g := Grant(t, pick.runId, runnerId, ttlSecs, now);
      GrantEvolves(t, g, AfterGrant(t, g));
      EvolvesTransitive(s, t, AfterGrant(t, g));
    }
  }

  lemma RecoverAddsNothing(s: MemoryState, now: Millis)
    ensures var t := Recover(s, now);
      t.ids == s.ids && t.jobs == s.jobs && t.runs.Keys == s.runs.Keys && t.attempts.Keys == s.attempts.Keys
  {}

  lemma CompleteEvolves(s: MemoryState, p: CompleteParams, hash: nat, now: Millis)
    requires Inv(s) && p.status.Terminal() && SpecsParse(s)
    ensures Evolves(s, Complete(s, p, hash, now).next) && NewRecords(s, Complete(s, p, hash, now).next, now)
  {
    if Preflight(s, p, now).None? {
      CompleteWrites(s, p, hash, now);
      assert RunOk(s, s.runs[s.attempts[p.attemptId].runId]);
    }
  }

  lemma CancelEvolves(s: MemoryState, runId: Id, now: Millis)
    requires Inv(s)
    ensures Evolves(s, Cancel(s, runId, now).next) && NewRecords(s, Cancel(s, runId, now).next, now)
  {
    hide Evolves, NewRecords, FindRunning, MarkCancel, Inv;
    if runId in s.runs && s.runs[runId].status.Running? && FindRunning(s, runId, s.ids + 1).Some? {
      MarkCancelEvolves(s, runId, FindRunning(s, runId, s.ids + 1).value, now);
    } else if runId in s.runs && s.runs[runId].status.Queued? {
      CancelQueuedEvolves(s, runId, now);
    } else {
      RebindEvolves(s, s, now);
    }
  }

  lemma CancelQueuedEvolves(s: MemoryState, runId: Id, now: Millis)
    requires Inv(s) && runId in s.runs && s.runs[runId].status.Queued?
    ensures Evolves(s, Cancel(s, runId, now).next) && NewRecords(s, Cancel(s, runId, now).next, now)
  {
    assert RunOk(s, s.runs[runId]);
  }

  lemma MarkCancelEvolves(s: MemoryState, runId: Id, a: Id, now: Millis)
    requires Inv(s) && runId in s.runs && s.runs[runId].status.Running?
    requires a in s.attempts && s.attempts[a].status.AttemptRunning?
    ensures Evolves(s, MarkCancel(s, runId, a, now)) && NewRecords(s, MarkCancel(s, runId, a, now), now)
  {
    assert AttemptOk(s, s.attempts[a]);
  }

  lemma HeartbeatEvolves(s: MemoryState, p: RunnerParams, ttlSecs: nat, active: seq<Id>, now: Millis)
    requires Inv(s)
    ensures Evolves(s, Heartbeat(s, p, ttlSecs, active, now).next)
    ensures NewRecords(s, Heartbeat(s, p, ttlSecs, active, now).next, now)
  {
    RenewLeasesKeepsReleased(s.leases, active, p.runnerId, SatAdd(now, ttlSecs * 1000));
  }

  lemma {:induction false} RenewLeasesKeepsReleased(leases: map<Id, Lease>, ids: seq<Id>, runnerId: string, expiresAt: Millis)
    ensures var after := RenewLeases(leases, ids, runnerId, expiresAt).0;
      && after.Keys == leases.Keys
      && forall l :: l in leases ==> SameLease(leases[l], after[l]) && (!leases[l].Open() ==> after[l] == leases[l])
    decreases |ids|
  {
    if ids != [] && ids[0] in leases && leases[ids[0]].runnerId == runnerId {
      RenewLeasesKeepsReleased(RenewLease(leases, ids[0], expiresAt), ids[1..], runnerId, expiresAt);
    }
  }

  lemma AddRunEvolves(s: MemoryState, run: Run, t: MemoryState, now: Millis)
    requires Inv(s) && run.id == s.ids + 1 && run.status.Queued? && run.attemptCount == 0
    requires t == s.(ids := s.ids + 1, runs := s.runs[run.id := run], runKeys := t.runKeys)
    ensures Evolves(s, t) && NewRecords(s, t, now)
  {}

  lemma {:induction false} ScheduleRunsEvolves(s: MemoryState, job: Job, due: seq<Millis>, now: Millis)
    requires Inv(s) && job.id in s.jobs
    ensures Evolves(s, ScheduleRuns(s, job, due)) && NewRecords(s, ScheduleRuns(s, job, due), now)
    decreases |due|
  {
    if due != [] {
      var init, at := due[..|due| - 1], due[|due| - 1];
      ScheduleRunsEvolves(s, job, init, now);
      ScheduleRunsKeepsInv(s, job, init);
      var t := ScheduleRuns(s, job, init);
      if !AlreadyScheduled(t, job.id, at) {
        var u := AddScheduledRun(t, job, at);
        AddRunEvolves(t, u.runs[t.ids + 1], u, now);
        TwoStepsEvolve(s, t, u, now);
      }
    }
  }

  lemma TwoStepsEvolve(s: MemoryState, t: MemoryState, u: MemoryState, now: Millis)
    requires Evolves(s, t) && NewRecords(s, t, now) && Evolves(t, u) && NewRecords(t, u, now)
    requires t.attempts == u.attempts && forall r :: r in t.runs ==> u.runs[r] == t.runs[r]
    ensures Evolves(s, u) && NewRecords(s, u, now)
  {
    EvolvesTransitive(s, t, u);
  }

  lemma {:induction false} TickEvolves(zones: ZoneDb, s: MemoryState, order: seq<string>, now: Millis)
    requires Inv(s) && now < I64_MAX
    ensures Evolves(s, Tick(zones, s, order, now).next) && NewRecords(s, Tick(zones, s, order, now).next, now)
    decreases |order|
  {
    if order != [] {
      var init, jobId := order[..|order| - 1], order[|order| - 1];
      TickEvolves(zones, s, init, now);
      TickKeepsInv(zones, s, init, now);
      var before, t := Tick(zones, s, init, now).next, Tick(zones, s, order, now).next;
      if t != before {
        var due := JobDue(zones, before, s.jobs[jobId], now).value;
        ScheduleRunsEvolves(before, s.jobs[jobId], due, now);
        ScheduleRunsAdds(before, s.jobs[jobId], due);
        TwoStepsEvolve(s, before, t, now);
      }
    }
  }

  /** Scheduling only adds runs. */
  lemma {:induction false} ScheduleRunsAdds(s: MemoryState, job: Job, due: seq<Millis>)
    requires Inv(s) && job.id in s.jobs
    ensures var t := ScheduleRuns(s, job, due);
      && t == s.(ids := t.ids, runs := t.runs)
      && s.ids <= t.ids
      && forall r :: r in s.runs ==> r in t.runs && t.runs[r] == s.runs[r]
    decreases |due|
  {
    if due != [] {
      ScheduleRunsAdds(s, job, due[..|due| - 1]);
      ScheduleRunsKeepsInv(s, job, due[..|due| - 1]);
    }
  }

  lemma EnqueueEvolves(s: MemoryState, p: EnqueueParams, now: Millis)
    requires Inv(s)
    ensures Evolves(s, Enqueue(s, p, now).next) && NewRecords(s, Enqueue(s, p, now).next, now)
  {
    var o := Enqueue(s, p, now);
    if o.result.Ok? && !o.result.value.deduped {
      AddRunEvolves(s, o.result.value.run, o.next, now);
    }
  }

  lemma ReplayEvolves(s: MemoryState, sourceId: Id, now: Millis)
    requires Inv(s)
    ensures Evolves(s, Replay(s, sourceId, now).next) && NewRecords(s, Replay(s, sourceId, now).next, now)
  {
    var o := Replay(s, sourceId, now);
    if o.result.Ok? {
      AddRunEvolves(s, o.result.value, o.next, now);
    }
  }

  /** Every enabled step only moves records forwards and starts new ones afresh. */
  lemma StepEvolves(zones: ZoneDb, s: MemoryState, e: Event)
    requires Inv(s) && SpecsParse(s) && Enabled(s, e)
    ensures Evolves(s, Apply(zones, s, e)) && NewRecords(s, Apply(zones, s, e), e.now)
  {
    hide Evolves, NewRecords, Inv, SpecsParse;
    hide RegisterDeploy, Heartbeat, Enqueue, Replay, LeaseNext, Complete, Cancel, Recover, Tick;
    match e.step
    case InsertProject(_) => RebindEvolves(s, Apply(zones, s, e), e.now);
    case Deploy(projectId, params) => DeployEvolves(s, projectId, params, e.now);
    case RegisterRunnerStep(runner) => RebindEvolves(s, s.(runners := s.runners[runner.runnerId := RunnerFrom(runner, e.now)]), e.now);
    case EnqueueStep(p) => EnqueueEvolves(s, p, e.now);
    case ReplayStep(sourceId) => ReplayEvolves(s, sourceId, e.now);
    case HeartbeatStep(runner, ttlSecs, active) => HeartbeatEvolves(s, runner, ttlSecs, active, e.now);
    case LeaseStep(runnerId, ttlSecs, pick) => LeaseNextEvolves(s, runnerId, ttlSecs, e.now, pick);
    case CompleteStep(p, hash) => CompleteEvolves(s, p, hash, e.now);
    case CancelStep(runId) => CancelEvolves(s, runId, e.now);
    case RecoverStep => RecoverEvolves(s, e.now);
    case TickStep(order) => TickEvolves(zones, s, order, e.now);
  }
}
