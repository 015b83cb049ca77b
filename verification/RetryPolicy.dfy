/**
 What a finished attempt means for its run: retry classes, capped exponential backoff
 with jitter, and the hold that a failing function puts on its job.
 */
module RetryPolicy {
  import opened Domain

  const HOLD_DELAY_MS: int := 30_000
  const KEY_RETENTION_MS: int := 86_400_000
  const MAX_BACKOFF_MS: int := 300_000

  predicate IsProviderFailure(failure: Option<FailureClass>) {
    && failure.Some?
    && (failure.value.ProviderTimeout? || failure.value.ProviderConnectError?
        || failure.value.Provider5xx? || failure.value.Provider429?
        || failure.value.ProviderAuthError?)
  }

  predicate IsRetryable(failure: Option<FailureClass>) {
    failure.Some? ==> !failure.value.UserCodeError? && !failure.value.ProviderAuthError?
  }

  predicate IsInfrastructureFailure(failure: Option<FailureClass>) {
    && failure.Some?
    && (failure.value.ProviderTimeout? || failure.value.ProviderConnectError?
        || failure.value.Provider5xx? || failure.value.Provider429?)
  }

  /** A class that counts against the function also counts against its provider, and
      is always worth a retry. */
  lemma InfrastructureFailuresRetry(failure: Option<FailureClass>)
    ensures IsInfrastructureFailure(failure) ==> IsProviderFailure(failure) && IsRetryable(failure)
    ensures IsProviderFailure(failure) && !IsInfrastructureFailure(failure)
            <==> failure == Some(ProviderAuthError)
  {}

  // ----- Backoff -----

  function Pow2(n: nat): (p: nat)
    ensures p >= 1
  {
    if n == 0 then 1 else 2 * Pow2(n - 1)
  }

  function BackoffBase(failure: Option<FailureClass>): (ms: int)
    ensures 2_000 <= ms <= 15_000
  {
    match failure
    case Some(Provider429) => 15_000
    case Some(ProviderTimeout) => 2_000
    case Some(ProviderConnectError) => 2_000
    case Some(Provider5xx) => 2_000
    case Some(GumInternalError) => 5_000
    case Some(JobTimeout) => 10_000
    case _ => 3_000
  }

  function CappedBackoff(attemptCount: nat, failure: Option<FailureClass>): int {
    var capped := if attemptCount < 6 then attemptCount else 6;
    var doublings := if capped >= 1 then capped - 1 else 0;
    var exponential := BackoffBase(failure) * Pow2(doublings);
    if exponential < MAX_BACKOFF_MS then exponential else MAX_BACKOFF_MS
  }

  /** `hash` stands for the 64-bit hash of the run id and the attempt count. */
  function Jitter(hash: nat, maxJitterMs: int): int {
    if maxJitterMs <= 0 then 0 else hash % maxJitterMs
  }

  function BackoffDelay(attemptCount: nat, failure: Option<FailureClass>, hash: nat): int {
    var capped := CappedBackoff(attemptCount, failure);
    capped + Jitter(hash, capped / 5)
  }

  lemma CappedBackoffTable(failure: Option<FailureClass>, n: nat)
    ensures n <= 1 ==> CappedBackoff(n, failure) == BackoffBase(failure)
    ensures n >= 6 ==> CappedBackoff(n, failure) == CappedBackoff(6, failure)
    ensures CappedBackoff(6, failure) == if BackoffBase(failure) >= 10_000 then 300_000 else 32 * BackoffBase(failure)
    ensures 1 <= n <= 5 ==> CappedBackoff(n, failure) <= 240_000
    ensures 1 <= n <= 5 ==> 5 * CappedBackoff(n + 1, failure) >= 6 * CappedBackoff(n, failure)
  {
    assert Pow2(0) == 1 && Pow2(1) == 2 && Pow2(2) == 4;
    assert Pow2(3) == 8 && Pow2(4) == 16 && Pow2(5) == 32;
    if 1 <= n <= 5 {
      assert n == 1 || n == 2 || n == 3 || n == 4 || n == 5;
    }
  }

  /** Whatever the hash, a retry waits at least two seconds and less than six minutes. */
  lemma BackoffBounds(attemptCount: nat, failure: Option<FailureClass>, hash: nat)
    ensures 2_000 <= BackoffDelay(attemptCount, failure, hash) < 360_000
  {
    CappedBackoffTable(failure, attemptCount);
  }

  predicate GrowsFrom(n: nat, failure: Option<FailureClass>, hash: nat, nextHash: nat) {
    BackoffDelay(n, failure, hash) < BackoffDelay(n + 1, failure, nextHash)
  }

  /** Backoff grows from attempt n to n + 1 for every pair of hashes exactly while
      1 <= n < 6; outside that range some pair of hashes shows no growth. */
  lemma BackoffGrowsExactly(n: nat, failure: Option<FailureClass>)
    ensures (forall h, k: nat :: GrowsFrom(n, failure, h, k)) <==> 1 <= n < 6
  {
    CappedBackoffTable(failure, n);
    CappedBackoffTable(failure, n + 1);
    if !(1 <= n < 6) {
      assert !GrowsFrom(n, failure, 0, 0);
    }
  }

  // ----- Function health -----

  /** `apply_function_signal_locked`: the record that replaces `previous`. */
  function AfterSignal(previous: Option<FunctionHealth>, jobId: string,
                       failure: Option<FailureClass>, status: AttemptStatus, now: Millis): FunctionHealth
  {
    var changedAt := (state: HealthState) =>
      if previous.Some? && previous.value.state == state then previous.value.lastChangedAt else now;
    var lastSuccess := if previous.Some? then previous.value.lastSuccessAt else None;
    var lastFailure := if previous.Some? then previous.value.lastFailureAt else None;
    if status.AttemptSucceeded? then
      FunctionHealth(jobId, Healthy, 0, None, changedAt(Healthy), Some(now), lastFailure)
    else if IsInfrastructureFailure(failure) then
      var streak := SatAdd32(if previous.Some? then previous.value.consecutiveInfraFailures else 0, 1);
      var state := if streak >= 5 then Down else if streak >= 3 then Degraded else Healthy;
      var hold := if state.Healthy? then None else Some(now + HOLD_DELAY_MS);
      FunctionHealth(jobId, state, streak, hold, changedAt(state), lastSuccess, Some(now))
    else
      match previous
      case Some(record) => record
      case None => FunctionHealth(jobId, Healthy, 0, None, now, None, None)
  }

  // ----- Retry disposition -----

  datatype Disposition = Disposition(
    nextStatus: RunStatus,
    failureClass: Option<FailureClass>,
    retryAfter: Option<Millis>,
    waitingFor: Option<string>)

  function FinalStatus(status: AttemptStatus): RunStatus {
    if status.AttemptTimedOut? then TimedOut else Failed
  }

  /** `compute_retry_disposition`. */
  function ComputeDisposition(attemptCount: nat, maxAttempts: nat, status: AttemptStatus,
                              failure: Option<FailureClass>, health: Option<FunctionHealth>,
                              hash: nat, now: Millis): Disposition
  {
    match status
    case AttemptSucceeded => Disposition(Succeeded, None, None, None)
    case AttemptCanceled => Disposition(Canceled, failure, None, None)
    case AttemptFailed => RetryOrFinish(attemptCount, maxAttempts, status, failure, health, hash, now)
    case AttemptTimedOut => RetryOrFinish(attemptCount, maxAttempts, status, failure, health, hash, now)
    case _ => Disposition(Queued, failure, None, None)
  }

  function RetryOrFinish(attemptCount: nat, maxAttempts: nat, status: AttemptStatus,
                         failure: Option<FailureClass>, health: Option<FunctionHealth>,
                         hash: nat, now: Millis): Disposition
  {
    if attemptCount >= maxAttempts || !IsRetryable(failure) then
      Disposition(FinalStatus(status), failure, None, None)
    else if health.Some? && !health.value.state.Healthy? && IsInfrastructureFailure(failure) then
      var holdUntil := match health.value.holdUntil
        case Some(until) => until
        case None => now + HOLD_DELAY_MS;
      Disposition(Queued, Some(BlockedByDownstream), Some(holdUntil), Some(health.value.jobId))
    else
      Disposition(Queued, failure, Some(now + BackoffDelay(attemptCount, failure, hash)), None)
  }

  /** An infrastructure failure that leaves its function held, with attempts to spare,
      requeues the run until the end of the hold and names the job it waits for. */
  lemma HeldFunctionDelaysRetry(attemptCount: nat, maxAttempts: nat, status: AttemptStatus,
                                failure: Option<FailureClass>, previous: Option<FunctionHealth>,
                                jobId: string, hash: nat, now: Millis)
    requires status.AttemptFailed? || status.AttemptTimedOut?
    requires attemptCount < maxAttempts && IsInfrastructureFailure(failure)
    requires previous.Some? && previous.value.consecutiveInfraFailures >= 2
    ensures var health := AfterSignal(previous, jobId, failure, status, now);
      ComputeDisposition(attemptCount, maxAttempts, status, failure, Some(health), hash, now)
        == Disposition(Queued, Some(BlockedByDownstream), Some(now + HOLD_DELAY_MS), Some(jobId))
  {
    InfrastructureFailuresRetry(failure);
  }

  /** A failed attempt leaves its run queued exactly when attempts remain and its class
      is worth a retry, and then the retry lies strictly between now and six minutes on. */
  lemma RequeueIsDelayed(attemptCount: nat, maxAttempts: nat, status: AttemptStatus,
                         failure: Option<FailureClass>, previous: Option<FunctionHealth>,
                         jobId: string, hash: nat, now: Millis)
    requires status.AttemptFailed? || status.AttemptTimedOut?
    ensures var health := AfterSignal(previous, jobId, failure, status, now);
            var d := ComputeDisposition(attemptCount, maxAttempts, status, failure, Some(health), hash, now);
            && (d.nextStatus.Queued? <==> attemptCount < maxAttempts && IsRetryable(failure))
            && (d.retryAfter.Some? <==> d.nextStatus.Queued?)
            && (d.retryAfter.Some? ==> now < d.retryAfter.value < now + 360_000)
  {
    BackoffBounds(attemptCount, failure, hash);
  }
}
