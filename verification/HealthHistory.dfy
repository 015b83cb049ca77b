/**
 Function health over a run of the store: what a job's health record says about the
 completions that were reported for it, and what it does to leasing.
 */
module HealthHistory {
  import opened Domain
  import opened RetryPolicy
  import opened Schedule
  import opened Transitions
  import opened Invariant
  import opened Steps
  import opened Traces
  import opened Recovery
  import opened Capacity

  /** A completion as the job's health sees it. */
  datatype Signal = Signal(status: AttemptStatus, failure: Option<FailureClass>, at: Millis) {
    predicate Success() { status.AttemptSucceeded? }
    predicate InfraFailure() { !Success() && IsInfrastructureFailure(failure) }
  }

  // ----- What a history means, independently of the record -----

  /** The index just past the last success, or 0. */
  function AfterLastSuccess(signals: seq<Signal>): (n: nat)
    ensures n <= |signals|
  {
    if signals == [] then 0
    else if signals[|signals| - 1].Success() then |signals|
    else AfterLastSuccess(signals[..|signals| - 1])
  }

  function InfraFailuresFrom(signals: seq<Signal>, from: nat): nat {
    if |signals| <= from then 0
    else InfraFailuresFrom(signals[..|signals| - 1], from) + if signals[|signals| - 1].InfraFailure() then 1 else 0
  }

  /** The infrastructure failures since the last success. */
  function Streak(signals: seq<Signal>): nat { InfraFailuresFrom(signals, AfterLastSuccess(signals)) }

  function LastInfraFailure(signals: seq<Signal>): Option<Millis> {
    if signals == [] then None
    else if signals[|signals| - 1].InfraFailure() then Some(signals[|signals| - 1].at)
    else LastInfraFailure(signals[..|signals| - 1])
  }

  function LastSuccess(signals: seq<Signal>): Option<Millis> {
    var n := AfterLastSuccess(signals);
    if n == 0 then None else Some(signals[n - 1].at)
  }

  function StateFor(streak: nat): HealthState {
    if streak >= 5 then Down else if streak >= 3 then Degraded else Healthy
  }

  /** When the last signal came that changed the state; the first one always does. */
  function ChangedAt(signals: seq<Signal>): Millis
    requires signals != []
  {
    var init, last := signals[..|signals| - 1], signals[|signals| - 1];
    if init == [] || StateFor(Streak(init)) != StateFor(Streak(signals)) then last.at else ChangedAt(init)
  }

  /** The record tells the streak (up to 32 bits), its threshold state, since when, the hold
      and the two latest times, and nothing was recorded before the first signal. */
  predicate Tells(record: Option<FunctionHealth>, jobId: string, signals: seq<Signal>) {
    && (record.None? <==> signals == [])
    && (record.Some? ==>
          var h, streak := record.value, Streak(signals);
          && h.jobId == jobId
          && h.consecutiveInfraFailures == (if streak < U32_MAX then streak else U32_MAX)
          && h.state == StateFor(streak)
          && signals != [] && h.lastChangedAt == ChangedAt(signals)
          && (h.holdUntil.Some? <==> streak >= 3)
          && (h.holdUntil.Some? ==>
                LastInfraFailure(signals).Some? && h.holdUntil.value == LastInfraFailure(signals).value + HOLD_DELAY_MS)
          && h.lastSuccessAt == LastSuccess(signals)
          && h.lastFailureAt == LastInfraFailure(signals))
  }

  lemma {:induction false} CountBeyond(signals: seq<Signal>, signal: Signal, from: nat)
    requires from <= |signals|
    ensures InfraFailuresFrom(signals + [signal], from)
            == InfraFailuresFrom(signals, from) + if signal.InfraFailure() then 1 else 0
  {
    assert (signals + [signal])[..|signals|] == signals;
  }

  lemma NextSignalTells(record: Option<FunctionHealth>, jobId: string, signals: seq<Signal>, signal: Signal)
    requires Tells(record, jobId, signals)
    ensures Tells(Some(AfterSignal(record, jobId, signal.failure, signal.status, signal.at)), jobId, signals + [signal])
  {
    var all := signals + [signal];
    assert all[..|signals|] == signals;
    CountBeyond(signals, signal, AfterLastSuccess(signals));
    var n := AfterLastSuccess(all);
    assert n != |all| ==> n == AfterLastSuccess(signals);
    assert 0 < n <= |signals| ==> all[n - 1] == signals[n - 1];
  }

  // ----- The history of a job in a trace -----

  /** The signal that step `e` gives the job, if it completes an attempt of it. */
  function SignalFor(s: MemoryState, e: Event, jobId: string): Option<Signal> {
    match e.step
    case CompleteStep(p, hash) =>
      if Complete(s, p, hash, e.now).result.Ok? && CompletedJob(s, p).Some? && CompletedJob(s, p).value.id == jobId
      then Some(Signal(p.status, p.failureClass, e.now)) else None
    case _ => None
  }

  function SignalsOf(tr: Trace, jobId: string, i: nat): seq<Signal>
    requires i < |tr.states| && i <= |tr.events|
  {
    if i == 0 then []
    else
      var before := SignalsOf(tr, jobId, i - 1);
      match SignalFor(tr.states[i - 1], tr.events[i - 1], jobId)
      case None => before
      case Some(signal) => before + [signal]
  }

  lemma HealthFollowsSignal(zones: ZoneDb, s: MemoryState, e: Event, jobId: string)
    requires Inv(s) && SpecsParse(s) && Enabled(s, e)
    ensures HealthOf(Apply(zones, s, e), jobId) ==
      match SignalFor(s, e, jobId)
      case None => HealthOf(s, jobId)
      case Some(signal) => Some(AfterSignal(HealthOf(s, jobId), jobId, signal.failure, signal.status, signal.at))
  {
    hide Complete, LeaseNext, Cancel, Tick, Recover, Enqueue, Replay, RegisterDeploy, RenewLeases, AfterSignal, Inv, SpecsParse;
    match e.step
    case CompleteStep(p, hash) => CompletionSignals(s, p, hash, e.now);
    case HeartbeatStep(_, _, _) =>
    case RegisterRunnerStep(_) =>
    case _ => StepIsQuiet(zones, s, e);
  }

  lemma CompletionSignals(s: MemoryState, p: CompleteParams, hash: nat, now: Millis)
    requires Inv(s) && SpecsParse(s) && p.status.Terminal()
    ensures var o := Complete(s, p, hash, now);
      && (o.result.Err? ==> o.next.health == s.health)
      && (o.result.Ok? ==>
            && CompletedJob(s, p).Some?
            && var jobId := CompletedJob(s, p).value.id;
               o.next.health == s.health[jobId := AfterSignal(HealthOf(s, jobId), jobId, p.failureClass, p.status, now)])
  {
    hide AfterSignal, ComputeDisposition;
    CompletionIsFenced(s, p, hash, now);
    if p.attemptId in s.attempts {
      assert AttemptOk(s, s.attempts[p.attemptId]);
    }
  }

  /** In every reachable state a job's health record is exactly what its completions so
      far make it: the counter is the number of infrastructure failures since the last
      success, the state is its 3/5 threshold, and a hold exists exactly when the state
      is not Healthy and ends thirty seconds after the last such failure. */
  lemma {:induction false} HealthTellsTheHistory(tr: Trace, jobId: string, i: nat)
    requires IsTrace(tr) && i < |tr.states|
    ensures Tells(HealthOf(tr.states[i], jobId), jobId, SignalsOf(tr, jobId, i))
  {
    hide Apply, Enabled, Inv, SpecsParse;
    if i > 0 {
      HealthTellsTheHistory(tr, jobId, i - 1);
      ReachableStatesAreLinked(tr, i - 1);
      assert StepAt(tr, i - 1);
      HealthFollowsSignal(tr.zones, tr.states[i - 1], tr.events[i - 1], jobId);
      var signal := SignalFor(tr.states[i - 1], tr.events[i - 1], jobId);
      if signal.Some? {
        NextSignalTells(HealthOf(tr.states[i - 1], jobId), jobId, SignalsOf(tr, jobId, i - 1), signal.value);
      }
    }
  }

  // ----- Holds and delays at the lease step -----

  /** The run that step `i` starts an attempt of, if it does. */
  predicate StartsRunAt(tr: Trace, i: nat, r: Id)
    requires i + 1 < |tr.states| && i < |tr.events|
  {
    exists a :: a in tr.states[i + 1].attempts && a !in tr.states[i].attempts && tr.states[i + 1].attempts[a].runId == r
  }

  /** A started run was judged leasable in the just-recovered state. */
  lemma StartedRunWasLeasable(tr: Trace, i: nat, r: Id)
    requires IsTrace(tr) && i < |tr.events| && StartsRunAt(tr, i, r)
    ensures tr.events[i].step.LeaseStep?
    ensures var e, s := tr.events[i], Recover(tr.states[i], tr.events[i].now);
      && e.step.runnerId in s.runners && r in s.runs && Judge(s, s.runs[r], s.runners[e.step.runnerId], e.now).Leasable?
  {
    OneStep(tr, i);
    var e := tr.events[i];
    if !e.step.LeaseStep? {
      OnlyLeasingAddsAttempts(tr.zones, tr.states[i], e);
    } else {
      LeaseIsRecoverThenGrant(tr.states[i], e.step.runnerId, e.step.leaseTtlSecs, e.now, e.step.pick);
    }
  }

  /** No run of a job is started while completions so far hold the job: fewer than thirty
      seconds after the latest of three or more infrastructure failures since the last
      success. */
  lemma HeldJobsAreNotStarted(tr: Trace, i: nat, r: Id)
    requires IsTrace(tr) && i < |tr.events| && StartsRunAt(tr, i, r)
    ensures r in tr.states[i].runs
    ensures var signals := SignalsOf(tr, tr.states[i].runs[r].jobId, i);
      Streak(signals) >= 3 ==>
        LastInfraFailure(signals).Some? && LastInfraFailure(signals).value + HOLD_DELAY_MS <= tr.events[i].now
  {
    StartedRunWasLeasable(tr, i, r);
    ReachableStatesAreLinked(tr, i);
    var s := Recover(tr.states[i], tr.events[i].now);
    assert s.runs[r].jobId == tr.states[i].runs[r].jobId;
    HealthTellsTheHistory(tr, s.runs[r].jobId, i);
    assert s.jobs == tr.states[i].jobs && s.health == tr.states[i].health;
  }

  /** A run that is queued with a retry time keeps it, and is not started before it. */
  lemma RetryTimesAreRespected(tr: Trace, i: nat, k: nat, r: Id)
    requires IsTrace(tr) && i <= k < |tr.events| && r in tr.states[i].runs
    requires tr.states[i].runs[r].status.Queued? && tr.states[i].runs[r].retryAfter.Some?
    requires r in tr.states[k].runs && SameProgress(tr.states[i].runs[r], tr.states[k].runs[r])
    requires StartsRunAt(tr, k, r)
    ensures tr.states[i].runs[r].retryAfter.value <= tr.events[k].now
  {
    RecordsEvolve(tr, i, k);
    assert RunEvolves(tr.states[i].runs[r], tr.states[k].runs[r]);
    StartedRunWasLeasable(tr, k, r);
    OneStep(tr, k);
    QueuedRunsSurviveRecovery(tr.states[k], r, tr.events[k].now);
  }

  lemma QueuedRunsSurviveRecovery(s: MemoryState, r: Id, now: Millis)
    requires Inv(s) && r in s.runs && s.runs[r].status.Queued?
    ensures r in Recover(s, now).runs && Recover(s, now).runs[r] == s.runs[r]
  {
    LostRunChanges(s, r, now);
  }

  /** A completion that requeues its run sets a retry time strictly after now and less
      than six minutes away. */
  lemma RequeueDelay(s: MemoryState, p: CompleteParams, hash: nat, now: Millis)
    requires Inv(s) && SpecsParse(s) && p.status.Terminal()
    requires Complete(s, p, hash, now).result.Ok?
    ensures var run := Complete(s, p, hash, now).result.value.1;
      run.status.Queued? ==> run.retryAfter.Some? && now < run.retryAfter.value < now + 360_000
  {
    var run := Complete(s, p, hash, now).result.value.1;
    var jobId := run.jobId;
    BackoffBounds(run.attemptCount, p.failureClass, hash);
  }
}
