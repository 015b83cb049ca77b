/**
 The in-memory store's calls as functions from the state they find to the state they
 leave and their answer. `MemoryStore` proves the methods against these functions;
 `Invariant`, `Traces` and the modules after it prove what the functions promise.
 */
module Transitions {
  import opened Domain
  import opened RateLimit
  import opened RetryPolicy
  import opened Loads
  import opened Schedule

  // ----- Deploys -----

  datatype JobParams = JobParams(
    id: string,
    scheduleExpr: Option<string>,
    retries: nat,
    rateLimitSpec: Option<string>,
    concurrencyLimit: Option<nat>,
    cpuCores: Option<nat>,
    memoryMb: Option<nat>,
    computeClass: Option<string>)

  function DeployedJob(p: JobParams, projectId: string, deployId: Id, now: Millis): Job {
    Job(p.id, projectId, deployId, p.scheduleExpr, p.retries, p.rateLimitSpec, p.concurrencyLimit,
        p.cpuCores, p.memoryMb, p.computeClass, true, now)
  }

  function InsertJobs(jobs: map<string, Job>, params: seq<JobParams>, projectId: string, deployId: Id, now: Millis)
    : map<string, Job>
    decreases |params|
  {
    if params == [] then jobs
    else
      var init, last := params[..|params| - 1], params[|params| - 1];
      InsertJobs(jobs, init, projectId, deployId, now)[last.id := DeployedJob(last, projectId, deployId, now)]
  }

  /** `register_deploy`: jobs that exist are overwritten, none is removed. */
  function RegisterDeploy(s: MemoryState, projectId: string, params: seq<JobParams>, now: Millis): Outcome<Id> {
    if projectId !in s.projects then Outcome(s, Err(ProjectNotFound))
    else
      var deployId := s.ids + 1;
      Outcome(s.(ids := deployId, jobs := InsertJobs(s.jobs, params, projectId, deployId, now)), Ok(deployId))
  }

  // ----- Runners -----

  datatype RunnerParams = RunnerParams(
    runnerId: string,
    computeClass: string,
    cpuCores: nat,
    memoryMb: nat,
    maxConcurrentLeases: nat,
    heartbeatTimeoutSecs: nat)

  function RunnerFrom(p: RunnerParams, now: Millis): Runner {
    Runner(p.runnerId, p.computeClass, p.cpuCores, p.memoryMb, p.maxConcurrentLeases, p.heartbeatTimeoutSecs, now)
  }

  function RegisterRunner(s: MemoryState, p: RunnerParams, now: Millis): MemoryState {
    s.(runners := s.runners[p.runnerId := RunnerFrom(p, now)])
  }

  /** One lease of the heartbeat's list: renewed when it is still open. */
  function RenewLease(leases: map<Id, Lease>, leaseId: Id, expiresAt: Millis): map<Id, Lease>
    requires leaseId in leases
  {
    if leases[leaseId].Open() then leases[leaseId := leases[leaseId].(expiresAt := expiresAt)] else leases
  }

  /** The leases after the heartbeat has worked through the list, and the error it
      stopped at, if any; renewals made before an error stay. */
  function RenewLeases(leases: map<Id, Lease>, ids: seq<Id>, runnerId: string, expiresAt: Millis)
    : (map<Id, Lease>, Option<Error>)
    decreases |ids|
  {
    if ids == [] then (leases, None)
    else if ids[0] !in leases then (leases, Some(LeaseNotFound))
    else if leases[ids[0]].runnerId != runnerId then (leases, Some(LeaseNotOwned))
    else RenewLeases(RenewLease(leases, ids[0], expiresAt), ids[1..], runnerId, expiresAt)
  }

  /** `heartbeat_runner`. */
  function Heartbeat(s: MemoryState, p: RunnerParams, ttlSecs: nat, active: seq<Id>, now: Millis): Outcome<Runner> {
    var renewed := RenewLeases(s.leases, active, p.runnerId, SatAdd(now, ttlSecs * 1000));
    var next := RegisterRunner(s, p, now).(leases := renewed.0);
    Outcome(next, match renewed.1 case Some(e) => Err(e) case None => Ok(RunnerFrom(p, now)))
  }

  // ----- Enqueue and replay -----

  datatype EnqueueParams = EnqueueParams(
    projectId: string, jobId: string, deployId: Id, key: Option<string>, delayMs: Option<int>)

  datatype EnqueueResult = EnqueueResult(run: Run, deduped: bool)

  /** `run_key_scope`. */
  function KeyScope(projectId: string, jobId: string, key: string): string {
    projectId + ":" + jobId + ":" + key
  }

  /** The run an unexpired key of the same scope stands for. */
  function KeyedRun(s: MemoryState, p: EnqueueParams, now: Millis): Option<Run> {
    if p.key.None? then None
    else
      var scope := KeyScope(p.projectId, p.jobId, p.key.value);
      if scope in s.runKeys && s.runKeys[scope].expiresAt > now && s.runKeys[scope].runId in s.runs
      then Some(s.runs[s.runKeys[scope].runId]) else None
  }

  function NewRun(id: Id, job: Job, projectId: string, deployId: Id, trigger: TriggerType,
                  scheduledAt: Millis, retryAfter: Option<Millis>): Run
  {
    Run(id, projectId, job.id, deployId, trigger, Queued, 0, job.retries + 1, scheduledAt,
        None, retryAfter, None, None)
  }

  function EnqueuedRun(id: Id, job: Job, p: EnqueueParams, now: Millis): Run {
    NewRun(id, job, p.projectId, p.deployId, TriggerType.Enqueued, now,
           match p.delayMs case Some(d) => Some(now + d) case None => None)
  }

  function KeysAfter(keys: map<string, RunKey>, p: EnqueueParams, runId: Id, now: Millis): map<string, RunKey> {
    match p.key
    case None => keys
    case Some(key) =>
      keys[KeyScope(p.projectId, p.jobId, key) := RunKey(runId, now, now + KEY_RETENTION_MS)]
  }

  /** `enqueue_run`. */
  function Enqueue(s: MemoryState, p: EnqueueParams, now: Millis): Outcome<EnqueueResult> {
    if p.jobId !in s.jobs then Outcome(s, Err(JobNotFound))
    else
      var job := s.jobs[p.jobId];
      if !job.enabled then Outcome(s, Err(JobDisabled))
      else if job.projectId != p.projectId || job.deployId != p.deployId then Outcome(s, Err(JobMismatch))
      else if KeyedRun(s, p, now).Some? then Outcome(s, Ok(EnqueueResult(KeyedRun(s, p, now).value, true)))
      else
        var id := s.ids + 1;
        var run := EnqueuedRun(id, job, p, now);
        Outcome(s.(ids := id, runs := s.runs[id := run], runKeys := KeysAfter(s.runKeys, p, id, now)),
                Ok(EnqueueResult(run, false)))
  }

  /** `replay_run`. */
  function Replay(s: MemoryState, sourceId: Id, now: Millis): Outcome<Run> {
    if sourceId !in s.runs then Outcome(s, Err(RunNotFound))
    else
      var source, id := s.runs[sourceId], s.ids + 1;
      var run := Run(id, source.projectId, source.jobId, source.deployId, Replayed, Queued, 0,
                     source.maxAttempts, now, None, None, None, Some(source.id));
      Outcome(s.(ids := id, runs := s.runs[id := run]), Ok(run))
  }

  // ----- Recovery -----

  predicate RunnerStale(s: MemoryState, runnerId: string, now: Millis) {
    runnerId in s.runners && s.runners[runnerId].StaleAt() <= now
  }

  /** A running attempt whose open lease has expired or whose runner has gone quiet. */
  predicate Lost(s: MemoryState, attempt: Attempt, now: Millis) {
    && attempt.status.AttemptRunning?
    && attempt.leaseId.Some?
    && attempt.leaseId.value in s.leases
    && var lease := s.leases[attempt.leaseId.value];
       && lease.Open()
       && (lease.expiresAt <= now || RunnerStale(s, lease.runnerId, now))
  }

  function LostAttempts(s: MemoryState, now: Millis): set<Id> {
    set a | a in s.attempts && Lost(s, s.attempts[a], now)
  }

  function FailedByRecovery(attempt: Attempt, now: Millis): Attempt {
    attempt.(status := AttemptFailed, failureClass := Some(GumInternalError), finishedAt := Some(now))
  }

  function AfterLoss(run: Run, retried: bool): Run {
    if retried then
      run.(status := Queued, failureClass := None, retryAfter := None, waitingFor := None)
    else
      run.(status := Failed, failureClass := Some(GumInternalError), retryAfter := None, waitingFor := None)
  }

  function RunAfterLoss(run: Run): Run { AfterLoss(run, run.attemptCount < run.maxAttempts) }

  predicate LeaseTaken(s: MemoryState, taken: set<Id>, leaseId: Id) {
    exists a :: a in taken && a in s.attempts && s.attempts[a].leaseId == Some(leaseId)
  }

  predicate RunTaken(s: MemoryState, taken: set<Id>, runId: Id) {
    exists a :: a in taken && a in s.attempts && s.attempts[a].runId == runId
  }

  /** The state after the attempts in `taken` have been failed as lost. */
  function TakeAttempts(s: MemoryState, taken: set<Id>, now: Millis): MemoryState {
    s.(attempts := map a | a in s.attempts :: if a in taken then FailedByRecovery(s.attempts[a], now) else s.attempts[a],
       leases := map l | l in s.leases :: if LeaseTaken(s, taken, l) then s.leases[l].(releasedAt := Some(now)) else s.leases[l],
       runs := map r | r in s.runs :: if RunTaken(s, taken, r) then RunAfterLoss(s.runs[r]) else s.runs[r])
  }

  /** `recover_lost_attempts`. */
  function Recover(s: MemoryState, now: Millis): MemoryState {
    TakeAttempts(s, LostAttempts(s, now), now)
  }

  // ----- Leasing -----

  datatype Verdict = Leasable | Skipped | Broken(error: Error)

  /** How the scan of `lease_next_attempt` judges one run for one runner. */
  function Judge(s: MemoryState, run: Run, runner: Runner, now: Millis): Verdict {
    if !run.status.Queued? then Skipped
    else if run.retryAfter.Some? && run.retryAfter.value > now then Skipped
    else if run.jobId !in s.jobs || !s.jobs[run.jobId].enabled then Skipped
    else
      var job := s.jobs[run.jobId];
      if OnHold(s, job.id, now) then Skipped
      else if job.computeClass.Some? && runner.computeClass != job.computeClass.value then Skipped
      else if SatAdd32(Load(s, RunnerCpu(runner.id)), job.Cpu()) > runner.cpuCores then Skipped
      else if SatAdd32(Load(s, RunnerMemory(runner.id)), job.Memory()) > runner.memoryMb then Skipped
      else if job.concurrencyLimit.Some? && Load(s, JobRunning(job.id)) >= job.concurrencyLimit.value then Skipped
      else RateVerdict(s, job, now)
  }

  predicate OnHold(s: MemoryState, jobId: string, now: Millis) {
    jobId in s.health && s.health[jobId].holdUntil.Some? && s.health[jobId].holdUntil.value > now
  }

  function RateVerdict(s: MemoryState, job: Job, now: Millis): Verdict {
    match job.rateLimitSpec
    case None => Leasable
    case Some(raw) =>
      match ParseRateLimitSpec(raw)
      case Err(e) => Broken(e)
      case Ok(spec) =>
        if Load(s, StartsSince(ScopeOf(job, spec), now - spec.windowMs)) >= spec.limit then Skipped else Leasable
  }

  /** What the scan over the runs, in whatever order, came to. */
  datatype Pick = NoRun | PickRun(runId: Id) | ScanFailed(error: Error)

  ghost predicate PickAllowed(s: MemoryState, runnerId: string, now: Millis, pick: Pick) {
    && runnerId in s.runners
    && match pick
       case NoRun => forall r :: r in s.runs ==> Judge(s, s.runs[r], s.runners[runnerId], now).Skipped?
       case PickRun(r) => r in s.runs && Judge(s, s.runs[r], s.runners[runnerId], now).Leasable?
       case ScanFailed(e) => exists r :: r in s.runs && Judge(s, s.runs[r], s.runners[runnerId], now) == Broken(e)
  }

  datatype Leased = Leased(run: Run, attempt: Attempt, lease: Lease)

  function LeasedRun(run: Run): Run {
    run.(status := Running, attemptCount := run.attemptCount + 1, failureClass := None,
         retryAfter := None, waitingFor := None)
  }

  /** The two new records and the run they belong to. */
  function Grant(s: MemoryState, runId: Id, runnerId: string, ttlSecs: nat, now: Millis): Leased
    requires runId in s.runs
  {
    var run, attemptId, leaseId := s.runs[runId], s.ids + 1, s.ids + 2;
    Leased(LeasedRun(run),
           Attempt(attemptId, runId, run.attemptCount + 1, AttemptRunning, Some(leaseId), Some(runnerId),
                   now, None, None, None),
           Lease(leaseId, attemptId, runnerId, now + ttlSecs * 1000, None, None, None))
  }

  function AfterGrant(s: MemoryState, g: Leased): MemoryState {
    s.(ids := s.ids + 2,
       runs := s.runs[g.attempt.runId := g.run],
       attempts := s.attempts[g.attempt.id := g.attempt],
       leases := s.leases[g.lease.id := g.lease])
  }

  predicate RunnerFull(s: MemoryState, runnerId: string)
    requires runnerId in s.runners
  {
    Load(s, RunnerSlots(runnerId)) >= s.runners[runnerId].maxConcurrentLeases
  }

  /** `lease_next_attempt`: recovery first, then the slot check, then the scan. */
  function LeaseNext(s: MemoryState, runnerId: string, ttlSecs: nat, now: Millis, pick: Pick): Outcome<Option<Leased>>
  {
    var t := Recover(s, now);
    if runnerId !in t.runners then Outcome(t, Err(RunnerNotRegistered))
    else if RunnerFull(t, runnerId) then Outcome(t, Ok(None))
    else
      match pick
      case NoRun => Outcome(t, Ok(None))
      case ScanFailed(e) => Outcome(t, Err(e))
      case PickRun(r) =>
        if r !in t.runs then Outcome(t, Ok(None))
        else
          var g := Grant(t, r, runnerId, ttlSecs, now);
          Outcome(AfterGrant(t, g), Ok(Some(g)))
  }

  /** A pick matters only when the scan is reached, after recovery and the slot check. */
  ghost predicate LeasePickAllowed(s: MemoryState, runnerId: string, now: Millis, pick: Pick) {
    var t := Recover(s, now);
    runnerId in t.runners && !RunnerFull(t, runnerId) ==> PickAllowed(t, runnerId, now, pick)
  }

  // ----- Completion -----

  datatype CompleteParams = CompleteParams(
    attemptId: Id, runnerId: string, status: AttemptStatus, failureClass: Option<FailureClass>)

  /** The checks `complete_attempt` makes before it writes anything. */
  function Preflight(s: MemoryState, p: CompleteParams, now: Millis): Option<Error> {
    if p.attemptId !in s.attempts then Some(AttemptNotFound)
    else
      var attempt := s.attempts[p.attemptId];
      if attempt.finishedAt.Some? || attempt.status.Terminal() then Some(AttemptFinished)
      else if attempt.cancelRequestedAt.Some? && !p.status.AttemptCanceled? then Some(CancelRequested)
      else if attempt.runnerId != Some(p.runnerId) then Some(RunnerMismatch)
      else if attempt.leaseId.None? || attempt.leaseId.value !in s.leases then Some(LeaseMissing)
      else
        var lease := s.leases[attempt.leaseId.value];
        if !lease.Open() || lease.expiresAt <= now then Some(LeaseInvalid) else None
  }

  function FinishedAttempt(attempt: Attempt, p: CompleteParams, now: Millis): Attempt {
    attempt.(status := p.status, failureClass := p.failureClass, finishedAt := Some(now))
  }

  /** The attempt and lease as written, before anything about the run is known. */
  function AckAttempt(s: MemoryState, p: CompleteParams, now: Millis): MemoryState
    requires Preflight(s, p, now).None?
  {
    var attempt := s.attempts[p.attemptId];
    var lease := s.leases[attempt.leaseId.value];
    s.(attempts := s.attempts[p.attemptId := FinishedAttempt(attempt, p, now)],
       leases := s.leases[attempt.leaseId.value := lease.(ackedAt := Some(now), releasedAt := Some(now))])
  }

  function HealthOf(s: MemoryState, jobId: string): Option<FunctionHealth> {
    if jobId in s.health then Some(s.health[jobId]) else None
  }

  function SignalHealth(s: MemoryState, jobId: string, p: CompleteParams, now: Millis): MemoryState {
    s.(health := s.health[jobId := AfterSignal(HealthOf(s, jobId), jobId, p.failureClass, p.status, now)])
  }

  function DisposedRun(run: Run, d: Disposition): Run {
    run.(status := d.nextStatus, failureClass := d.failureClass, retryAfter := d.retryAfter, waitingFor := d.waitingFor)
  }

  /** `complete_attempt`. Note what the later errors leave behind: the attempt and its
      lease stay written. `hash` is the jitter hash of the run and its attempt count. */
  function Complete(s: MemoryState, p: CompleteParams, hash: nat, now: Millis): Outcome<(Attempt, Run)> {
    match Preflight(s, p, now)
    case Some(e) => Outcome(s, Err(e))
    case None =>
      var t := AckAttempt(s, p, now);
      var attempt := t.attempts[p.attemptId];
      if attempt.runId !in t.runs then Outcome(t, Err(RunNotFound))
      else
        var run := t.runs[attempt.runId];
        if run.jobId !in t.jobs then Outcome(t, Err(JobNotFound))
        else
          var job := t.jobs[run.jobId];
          if job.rateLimitSpec.Some? && ParseRateLimitSpec(job.rateLimitSpec.value).Err? then
            Outcome(t, Err(BadRateLimit))
          else
            var u := SignalHealth(t, job.id, p, now);
            if !p.status.Terminal() then Outcome(u, Err(StatusNotTerminal))
            else
              var d := ComputeDisposition(run.attemptCount, run.maxAttempts, p.status, p.failureClass,
                                          Some(u.health[job.id]), hash, now);
              var done := DisposedRun(run, d);
              Outcome(u.(runs := u.runs[attempt.runId := done]), Ok((attempt, done)))
  }

  // ----- Cancellation -----

  predicate RunsFor(attempt: Attempt, runId: Id) {
    attempt.runId == runId && attempt.status.AttemptRunning?
  }

  /** A running attempt of the run with an id below `n`. */
  function FindRunning(s: MemoryState, runId: Id, n: nat): (r: Option<Id>)
    ensures r.Some? ==> r.value in s.attempts && RunsFor(s.attempts[r.value], runId)
    ensures r.None? ==> forall a :: a in s.attempts && a < n ==> !RunsFor(s.attempts[a], runId)
  {
    if n == 0 then None
    else if n - 1 in s.attempts && RunsFor(s.attempts[n - 1], runId) then Some(n - 1)
    else FindRunning(s, runId, n - 1)
  }

  function MarkCancel(s: MemoryState, runId: Id, attemptId: Id, requestedAt: Millis): MemoryState
    requires runId in s.runs && attemptId in s.attempts
  {
    var attempt := s.attempts[attemptId];
    s.(attempts := s.attempts[attemptId := attempt.(cancelRequestedAt := Some(requestedAt))],
       leases := if attempt.leaseId.Some? && attempt.leaseId.value in s.leases
                 then s.leases[attempt.leaseId.value := s.leases[attempt.leaseId.value].(revokeRequestedAt := Some(requestedAt))]
                 else s.leases,
       runs := s.runs[runId := s.runs[runId].(failureClass := None)])
  }

  /** `cancel_run`: a queued run ends at once, a running one is only asked to stop. */
  function Cancel(s: MemoryState, runId: Id, requestedAt: Millis): Outcome<Run> {
    if runId !in s.runs then Outcome(s, Err(RunNotFound))
    else
      var run := s.runs[runId];
      match run.status
      case Queued =>
        var canceled := run.(status := Canceled, failureClass := None, retryAfter := None, waitingFor := None);
        Outcome(s.(runs := s.runs[runId := canceled]), Ok(canceled))
      case Running =>
        (match FindRunning(s, runId, s.ids + 1)
         case None => Outcome(s, Err(AttemptNotFound))
         case Some(a) =>
           var next := MarkCancel(s, runId, a, requestedAt);
           Outcome(next, Ok(next.runs[runId])))
      case _ => Outcome(s, Err(RunFinished))
  }

  // ----- Schedules -----

  predicate ScheduledFor(run: Run, jobId: string) { run.jobId == jobId && run.trigger.Scheduled? }

  /** The latest fire time for which the job has a scheduled run with an id below `n`. */
  function LatestBelow(s: MemoryState, jobId: string, n: nat): (latest: Option<Millis>)
    ensures forall r :: r in s.runs && r < n && ScheduledFor(s.runs[r], jobId) ==>
      latest.Some? && s.runs[r].scheduledAt <= latest.value
    ensures latest.Some? ==>
      exists r :: r in s.runs && r < n && ScheduledFor(s.runs[r], jobId) && s.runs[r].scheduledAt == latest.value
  {
    if n == 0 then None
    else
      var before := LatestBelow(s, jobId, n - 1);
      if n - 1 in s.runs && ScheduledFor(s.runs[n - 1], jobId) then
        if before.Some? && before.value > s.runs[n - 1].scheduledAt then before else Some(s.runs[n - 1].scheduledAt)
      else before
  }

  function LatestScheduled(s: MemoryState, jobId: string): Option<Millis> { LatestBelow(s, jobId, s.ids + 1) }

  predicate AlreadyScheduled(s: MemoryState, jobId: string, at: Millis) {
    exists r :: r in s.runs && ScheduledFor(s.runs[r], jobId) && s.runs[r].scheduledAt == at
  }

  function AddScheduledRun(s: MemoryState, job: Job, at: Millis): MemoryState {
    var run := NewRun(s.ids + 1, job, job.projectId, job.deployId, Scheduled, at, None);
    s.(ids := s.ids + 1, runs := s.runs[s.ids + 1 := run])
  }

  /** One run per due time that has none yet. */
  function ScheduleRuns(s: MemoryState, job: Job, due: seq<Millis>): MemoryState
    decreases |due|
  {
    if due == [] then s
    else
      var t := ScheduleRuns(s, job, due[..|due| - 1]);
      var at := due[|due| - 1];
      if AlreadyScheduled(t, job.id, at) then t else AddScheduledRun(t, job, at)
  }

  predicate HasSchedule(job: Job) { job.enabled && job.scheduleExpr.Some? }

  /** The scheduled jobs in the order the tick happens to visit them. */
  ghost predicate TickOrder(s: MemoryState, order: seq<string>) {
    && (forall i, j :: 0 <= i < j < |order| ==> order[i] != order[j])
    && (forall j :: j in order <==> j in s.jobs && HasSchedule(s.jobs[j]))
  }

  function JobDue(zones: ZoneDb, s: MemoryState, job: Job, now: Millis): Result<seq<Millis>>
    requires job.scheduleExpr.Some? && now < I64_MAX
  {
    DueTimes(zones, job.scheduleExpr.value, job.createdAt, LatestScheduled(s, job.id), now)
  }

  /** `tick_schedules` over the first jobs of the order; an error stops it, but the runs
      created before stay. */
  function Tick(zones: ZoneDb, s: MemoryState, order: seq<string>, now: Millis): Outcome<()>
    requires now < I64_MAX
    decreases |order|
  {
    if order == [] then Outcome(s, Ok(()))
    else
      var before := Tick(zones, s, order[..|order| - 1], now);
      var jobId := order[|order| - 1];
      if before.result.Err? || jobId !in s.jobs || s.jobs[jobId].scheduleExpr.None? then before
      else
        var job := s.jobs[jobId];
        match JobDue(zones, before.next, job, now)
        case Err(e) => Outcome(before.next, Err(e))
        case Ok(due) => Outcome(ScheduleRuns(before.next, job, due), Ok(()))
  }
}
