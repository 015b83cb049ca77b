/**
 The records of the gum store and the in-memory state that holds them.

 Ids handed out by the store's counter ("run_7", "att_8", "lease_9") are modelled by
 the counter value itself; ids chosen by callers (projects, jobs, runners) are strings.
 Times are epoch milliseconds. Message texts and JSON payloads carry no behaviour and
 are not part of the records.
 */
module Domain {

  const U32_MAX: int := 0xFFFF_FFFF
  const I64_MAX: int := 0x7FFF_FFFF_FFFF_FFFF
  const I64_MIN: int := -0x8000_0000_0000_0000

  type Id = nat
  type Millis = int

  datatype Option<+T> = None | Some(value: T)

  datatype Result<+T> = Ok(value: T) | Err(error: Error)

  /** What the store answers instead of its error texts. */
  datatype Error =
    | ProjectNotFound
    | JobNotFound
    | JobDisabled
    | JobMismatch
    | RunNotFound
    | RunFinished
    | RunnerNotRegistered
    | RunnerMismatch
    | LeaseNotFound
    | LeaseNotOwned
    | LeaseMissing
    | LeaseInvalid
    | AttemptNotFound
    | AttemptFinished
    | CancelRequested
    | StatusNotTerminal
    | BadRateLimit
    | ConflictingPool
    | BadSchedule
    | NoFireTime

  /** `i64::saturating_add` of an amount that is not negative. */
  function SatAdd(a: int, b: nat): int {
    if a + b > I64_MAX then I64_MAX else a + b
  }

  /** `u32::saturating_add`. */
  function SatAdd32(a: nat, b: nat): nat {
    if a + b > U32_MAX then U32_MAX else a + b
  }

  datatype TriggerType = Enqueued | Scheduled | Replayed

  datatype RunStatus = Queued | Running | Succeeded | Failed | TimedOut | Canceled {
    predicate Terminal() { !Queued? && !Running? }
  }

  datatype AttemptStatus =
    | AttemptQueued | AttemptLeased | AttemptRunning
    | AttemptSucceeded | AttemptFailed | AttemptTimedOut | AttemptCanceled
  {
    predicate Terminal() { !AttemptQueued? && !AttemptLeased? && !AttemptRunning? }
  }

  datatype FailureClass =
    | ProviderTimeout | ProviderConnectError | Provider5xx | Provider429 | ProviderAuthError
    | UserCodeError | GumInternalError | JobTimeout | BlockedByDownstream
    | OtherClass(name: string)

  datatype HealthState = Healthy | Degraded | Down

  datatype Job = Job(
    id: string,
    projectId: string,
    deployId: Id,
    scheduleExpr: Option<string>,
    retries: nat,
    rateLimitSpec: Option<string>,
    concurrencyLimit: Option<nat>,
    cpuCores: Option<nat>,
    memoryMb: Option<nat>,
    computeClass: Option<string>,
    enabled: bool,
    createdAt: Millis)
  {
    function Cpu(): nat { match cpuCores case Some(c) => c case None => 1 }
    function Memory(): nat { match memoryMb case Some(m) => m case None => 512 }
  }

  datatype Run = Run(
    id: Id,
    projectId: string,
    jobId: string,
    deployId: Id,
    trigger: TriggerType,
    status: RunStatus,
    attemptCount: nat,
    maxAttempts: nat,
    scheduledAt: Millis,
    failureClass: Option<FailureClass>,
    retryAfter: Option<Millis>,
    waitingFor: Option<string>,
    replayOf: Option<Id>)

  datatype Attempt = Attempt(
    id: Id,
    runId: Id,
    number: nat,
    status: AttemptStatus,
    leaseId: Option<Id>,
    runnerId: Option<string>,
    startedAt: Millis,
    finishedAt: Option<Millis>,
    failureClass: Option<FailureClass>,
    cancelRequestedAt: Option<Millis>)

  datatype Lease = Lease(
    id: Id,
    attemptId: Id,
    runnerId: string,
    expiresAt: Millis,
    ackedAt: Option<Millis>,
    releasedAt: Option<Millis>,
    revokeRequestedAt: Option<Millis>)
  {
    predicate Open() { ackedAt.None? && releasedAt.None? }
  }

  datatype Runner = Runner(
    id: string,
    computeClass: string,
    cpuCores: nat,
    memoryMb: nat,
    maxConcurrentLeases: nat,
    heartbeatTimeoutSecs: nat,
    lastHeartbeatAt: Millis)
  {
    /** The first instant at which the runner counts as stale. */
    function StaleAt(): Millis { SatAdd(lastHeartbeatAt, heartbeatTimeoutSecs * 1000) }
  }

  datatype RunKey = RunKey(runId: Id, createdAt: Millis, expiresAt: Millis)

  datatype FunctionHealth = FunctionHealth(
    jobId: string,
    state: HealthState,
    consecutiveInfraFailures: nat,
    holdUntil: Option<Millis>,
    lastChangedAt: Millis,
    lastSuccessAt: Option<Millis>,
    lastFailureAt: Option<Millis>)

  /** Everything the store keeps behind its mutex, with the id counter beside it. */
  datatype MemoryState = MemoryState(
    ids: nat,
    projects: set<string>,
    jobs: map<string, Job>,
    runs: map<Id, Run>,
    attempts: map<Id, Attempt>,
    leases: map<Id, Lease>,
    runners: map<string, Runner>,
    runKeys: map<string, RunKey>,
    health: map<string, FunctionHealth>)

  const EMPTY: MemoryState :=
    MemoryState(0, {}, map[], map[], map[], map[], map[], map[], map[])

  /** A store call: the state it leaves behind and what it answers. */
  datatype Outcome<+T> = Outcome(next: MemoryState, result: Result<T>)
}
