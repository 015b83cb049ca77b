/**
 How runs end: what a report makes of its run, when the next attempt is due, and what the
 status of a run says about its attempts in every reachable state.
 */
module Outcomes {
  import opened Domain
  import opened RetryPolicy
  import opened Schedule
  import opened Transitions
  import opened Invariant
  import opened Steps
  import opened Traces

  // ----- What a report makes of the run -----

  /** Wrong code and wrong credentials fail again; everything else may not. */
  predicate MayPass(failure: Option<FailureClass>) { failure != Some(UserCodeError) && failure != Some(ProviderAuthError) }

  /** Another attempt is allowed and worth making. */
  predicate TriesAgain(run: Run, failure: Option<FailureClass>) { run.attemptCount < run.maxAttempts && MayPass(failure) }

  /** The status that a report leaves a run with. */
  predicate EndsAs(run: Run, status: AttemptStatus, failure: Option<FailureClass>, next: RunStatus) {
    && (next.Succeeded? <==> status.AttemptSucceeded?)
    && (next.Canceled? <==> status.AttemptCanceled?)
    && (next.Failed? <==> status.AttemptFailed? && !TriesAgain(run, failure))
    && (next.TimedOut? <==> status.AttemptTimedOut? && !TriesAgain(run, failure))
    && (next.Queued? <==> (status.AttemptFailed? || status.AttemptTimedOut?) && TriesAgain(run, failure))
    && !next.Running?
  }

  /** A completion that is accepted ends the attempt as reported, releases its lease, and
      decides the run by the report. */
  lemma CompletionDecidesRun(s: MemoryState, p: CompleteParams, hash: nat, now: Millis)
    requires Inv(s) && Complete(s, p, hash, now).result.Ok?
    ensures p.attemptId in s.attempts
    ensures var o, was := Complete(s, p, hash, now), s.attempts[p.attemptId];
      && was.leaseId.Some? && was.leaseId.value in o.next.leases && was.runId in s.runs && was.runId in o.next.runs
      && o.result.value == (o.next.attempts[p.attemptId], o.next.runs[was.runId])
      && o.next.attempts[p.attemptId] == was.(status := p.status, failureClass := p.failureClass, finishedAt := Some(now))
      && o.next.leases[was.leaseId.value].ackedAt == Some(now) == o.next.leases[was.leaseId.value].releasedAt
      && EndsAs(s.runs[was.runId], p.status, p.failureClass, o.next.runs[was.runId].status)
  {
    hide AfterSignal, BackoffDelay;
    assert AttemptOk(s, s.attempts[p.attemptId]);
  }

  // ----- When the next attempt is due -----

  /** Seconds before the second, third, ... attempt, by what went wrong; the last entry
      stands for all later ones. */
  function Waits(failure: Option<FailureClass>): (seconds: seq<nat>)
    ensures |seconds| == 6
  {
    match failure
    case Some(Provider429) => [15, 30, 60, 120, 240, 300]
    case Some(ProviderTimeout) => [2, 4, 8, 16, 32, 64]
    case Some(ProviderConnectError) => [2, 4, 8, 16, 32, 64]
    case Some(Provider5xx) => [2, 4, 8, 16, 32, 64]
    case Some(GumInternalError) => [5, 10, 20, 40, 80, 160]
    case Some(JobTimeout) => [10, 20, 40, 80, 160, 300]
    case _ => [3, 6, 12, 24, 48, 96]
  }

  function WaitMs(failure: Option<FailureClass>, attemptCount: nat): nat
    requires attemptCount > 0
  {
    1_000 * Waits(failure)[if attemptCount < 6 then attemptCount - 1 else 5]
  }

  lemma CappedIsTabled(attemptCount: nat, failure: Option<FailureClass>)
    requires attemptCount > 0
    ensures CappedBackoff(attemptCount, failure) == WaitMs(failure, attemptCount) >= 2_000
  {
    var n := if attemptCount < 6 then attemptCount else 6;
    PowersOfTwo(n - 1);
  }

  lemma PowersOfTwo(n: nat)
    requires n <= 5
    ensures Pow2(n) == [1, 2, 4, 8, 16, 32][n]
  {
    if n > 0 { PowersOfTwo(n - 1); }
  }

  lemma BackoffIsTabled(attemptCount: nat, failure: Option<FailureClass>, hash: nat)
    requires attemptCount > 0
    ensures var wait := WaitMs(failure, attemptCount);
      wait >= 2_000 && BackoffDelay(attemptCount, failure, hash) == wait + hash % (wait / 5)
  {
    hide CappedBackoff, WaitMs;
    CappedIsTabled(attemptCount, failure);
  }

  /** The failures that count against the function. */
  predicate AgainstFunction(failure: Option<FailureClass>) {
    failure in {Some(ProviderTimeout), Some(ProviderConnectError), Some(Provider5xx), Some(Provider429)}
  }

  /** A run that is queued again waits for its function to recover, when the failure was the
      third or a later one in a row against the function; otherwise for its tabled wait
      and up to a fifth more. */
  lemma RequeuedRunWaits(s: MemoryState, p: CompleteParams, hash: nat, now: Millis)
    requires Inv(s) && Complete(s, p, hash, now).result.Ok? && Complete(s, p, hash, now).result.value.1.status.Queued?
    ensures var t, run := Complete(s, p, hash, now).next, Complete(s, p, hash, now).result.value.1;
      && run.attemptCount > 0 && run.jobId in t.health
      && if AgainstFunction(p.failureClass) && t.health[run.jobId].consecutiveInfraFailures >= 3 then
           && run.retryAfter == Some(now + 30_000)
           && run.failureClass == Some(BlockedByDownstream) && run.waitingFor == Some(run.jobId)
         else
           var wait := WaitMs(p.failureClass, run.attemptCount);
           && wait >= 5 && run.retryAfter == Some(now + wait + hash % (wait / 5))
           && run.failureClass == p.failureClass && run.waitingFor == None
  {
    hide BackoffDelay;
    assert AttemptOk(s, s.attempts[p.attemptId]);
    var run := s.runs[s.attempts[p.attemptId].runId];
    BackoffIsTabled(run.attemptCount, p.failureClass, hash);
  }

  // ----- What a run's status says -----

  /** The latest attempt of a run and the run's status fit; the attempts before it failed
      or timed out. A run that waits for another attempt may have been canceled since. */
  predicate Tells(run: Run, attempt: Attempt) {
    if attempt.number < run.attemptCount then
      (attempt.status.AttemptFailed? || attempt.status.AttemptTimedOut?) && MayPass(attempt.failureClass)
    else
      match attempt.status
      case AttemptRunning => run.status.Running?
      case AttemptSucceeded => run.status.Succeeded?
      case AttemptCanceled => run.status.Canceled?
      case AttemptFailed =>
        if TriesAgain(run, attempt.failureClass) then run.status.Queued? || run.status.Canceled? else run.status.Failed?
      case AttemptTimedOut =>
        if TriesAgain(run, attempt.failureClass) then run.status.Queued? || run.status.Canceled? else run.status.TimedOut?
      case _ => false
  }

  predicate AttemptTells(s: MemoryState, a: Id) {
    a in s.attempts && s.attempts[a].runId in s.runs && Tells(s.runs[s.attempts[a].runId], s.attempts[a])
  }

  /** A run without attempts waits for its first or was canceled before it. */
  predicate UntriedOk(run: Run) { run.attemptCount == 0 ==> run.status.Queued? || run.status.Canceled? }

  ghost predicate Told(s: MemoryState) {
    && (forall a {:trigger AttemptTells(s, a)} :: a in s.attempts ==> AttemptTells(s, a))
    && (forall r {:trigger UntriedOk(s.runs[r])} :: r in s.runs ==> UntriedOk(s.runs[r]))
  }

  /** Steps that change neither attempts nor runs, other than adding untried ones. */
  lemma OnlyNewRuns(s: MemoryState, t: MemoryState)
    requires Told(s) && t.attempts == s.attempts
    requires forall r :: r in s.runs ==> r in t.runs && t.runs[r] == s.runs[r]
    requires forall r :: r in t.runs && r !in s.runs ==> t.runs[r].status.Queued? && t.runs[r].attemptCount == 0
    ensures Told(t)
  {
    forall a | a in t.attempts
      ensures AttemptTells(t, a)
    {
      assert AttemptTells(s, a);
    }
    forall r | r in t.runs
      ensures UntriedOk(t.runs[r])
    {
      if r in s.runs { assert UntriedOk(s.runs[r]); }
    }
  }

  lemma RecoverTold(s: MemoryState, now: Millis)
    requires Inv(s) && Told(s)
    ensures Told(Recover(s, now))
  {
    var t, taken := Recover(s, now), LostAttempts(s, now);
    forall a | a in t.attempts
      ensures AttemptTells(t, a)
    {
      assert AttemptTells(s, a);
      TakenTogether(s, taken, a);
      if RunTaken(s, taken, s.attempts[a].runId) {
        var b :| b in taken && b in s.attempts && s.attempts[b].runId == s.attempts[a].runId;
        OwnLease(s, a, b);
      }
    }
    forall r | r in t.runs
      ensures UntriedOk(t.runs[r])
    {
      assert UntriedOk(s.runs[r]);
      if RunTaken(s, taken, r) {
        var a :| a in taken && a in s.attempts && s.attempts[a].runId == r;
        assert AttemptOk(s, s.attempts[a]);
      }
    }
  }

  lemma GrantTold(s: MemoryState, runId: Id, runnerId: string, ttlSecs: nat, now: Millis)
    requires Inv(s) && Told(s) && runId in s.runs && s.runs[runId].status.Queued?
    ensures Told(AfterGrant(s, Grant(s, runId, runnerId, ttlSecs, now)))
  {
    var g := Grant(s, runId, runnerId, ttlSecs, now);
    var t := AfterGrant(s, g);
    forall a | a in t.attempts
      ensures AttemptTells(t, a)
    {
      if a != g.attempt.id {
        assert AttemptTells(s, a) && AttemptOk(s, s.attempts[a]);
      }
    }
    forall r | r in t.runs
      ensures UntriedOk(t.runs[r])
    {
      if r != runId { assert UntriedOk(s.runs[r]); }
    }
  }

  lemma LeaseTold(s: MemoryState, runnerId: string, ttlSecs: nat, now: Millis, pick: Pick)
    requires Inv(s) && Told(s) && LeasePickAllowed(s, runnerId, now, pick)
    ensures Told(LeaseNext(s, runnerId, ttlSecs, now, pick).next)
  {
    hide Inv, Told, Recover, RunnerFull, AfterGrant, Grant;
    var t := Recover(s, now);
    RecoverTold(s, now);
    RecoverKeepsInv(s, now);
    if runnerId in t.runners && !RunnerFull(t, runnerId) && pick.PickRun? {
      GrantTold(t, pick.runId, runnerId, ttlSecs, now);
    }
  }

  lemma CompleteTold(s: MemoryState, p: CompleteParams, hash: nat, now: Millis)
    requires Inv(s) && SpecsParse(s) && Told(s) && p.status.Terminal()
    ensures Told(Complete(s, p, hash, now).next)
  {
    CompletionIsFenced(s, p, hash, now);
    if Complete(s, p, hash, now).result.Ok? {
      CompleteWrites(s, p, hash, now);
      CompletionDecidesRun(s, p, hash, now);
      DecidedTold(s, p, now, Complete(s, p, hash, now).next);
    }
  }

  lemma DecidedTold(s: MemoryState, p: CompleteParams, now: Millis, t: MemoryState)
    requires Inv(s) && Told(s) && p.status.Terminal()
    requires p.attemptId in s.attempts && s.attempts[p.attemptId].status.AttemptRunning?
    requires var was := s.attempts[p.attemptId];
      && was.runId in s.runs && was.runId in t.runs
      && t.attempts == s.attempts[p.attemptId := was.(status := p.status, failureClass := p.failureClass, finishedAt := Some(now))]
      && t.runs == s.runs[was.runId := t.runs[was.runId]]
      && t.runs[was.runId].attemptCount == s.runs[was.runId].attemptCount
      && t.runs[was.runId].maxAttempts == s.runs[was.runId].maxAttempts
      && EndsAs(s.runs[was.runId], p.status, p.failureClass, t.runs[was.runId].status)
    ensures Told(t)
  {
    assert AttemptOk(s, s.attempts[p.attemptId]);
    forall a | a in t.attempts
      ensures AttemptTells(t, a)
    {
      assert AttemptTells(s, a);
      OwnLease(s, p.attemptId, a);
    }
    forall r | r in t.runs
      ensures UntriedOk(t.runs[r])
    {
      assert UntriedOk(s.runs[r]);
    }
  }

  lemma CancelTold(s: MemoryState, runId: Id, now: Millis)
    requires Inv(s) && Told(s)
    ensures Told(Cancel(s, runId, now).next)
  {
    hide Told, Inv, FindRunning, MarkCancel;
    if runId in s.runs && s.runs[runId].status.Queued? {
      var t := Cancel(s, runId, now).next;
      ChangedRunTold(s, t, runId);
    } else if runId in s.runs && s.runs[runId].status.Running? && FindRunning(s, runId, s.ids + 1).Some? {
      MarkedTold(s, runId, FindRunning(s, runId, s.ids + 1).value, now);
    }
  }

  lemma ChangedRunTold(s: MemoryState, t: MemoryState, r: Id)
    requires Inv(s) && Told(s) && r in s.runs && s.runs[r].status.Queued?
    requires r in t.runs && t == s.(runs := s.runs[r := t.runs[r]]) && SameRun(s.runs[r], t.runs[r]) && t.runs[r].status.Canceled?
    ensures Told(t)
  {
    forall a | a in t.attempts
      ensures AttemptTells(t, a)
    {
      assert AttemptTells(s, a) && AttemptOk(s, s.attempts[a]);
    }
    forall k | k in t.runs
      ensures UntriedOk(t.runs[k])
    {
      assert UntriedOk(s.runs[k]);
    }
  }

  lemma MarkedTold(s: MemoryState, runId: Id, b: Id, now: Millis)
    requires Told(s) && runId in s.runs && b in s.attempts
    ensures Told(MarkCancel(s, runId, b, now))
  {
    var t := MarkCancel(s, runId, b, now);
    forall a | a in t.attempts
      ensures AttemptTells(t, a)
    {
      assert AttemptTells(s, a);
    }
    forall r | r in t.runs
      ensures UntriedOk(t.runs[r])
    {
      assert UntriedOk(s.runs[r]);
    }
  }

  lemma StepTold(zones: ZoneDb, s: MemoryState, e: Event)
    requires Inv(s) && SpecsParse(s) && Enabled(s, e) && Told(s)
    ensures Told(Apply(zones, s, e))
  {
    hide Inv, SpecsParse, Told, Tick, Complete, LeaseNext, Cancel, Recover, KeyScope;
    match e.step
    case LeaseStep(runnerId, ttlSecs, pick) => LeaseTold(s, runnerId, ttlSecs, e.now, pick);
    case CompleteStep(p, hash) => CompleteTold(s, p, hash, e.now);
    case CancelStep(runId) => CancelTold(s, runId, e.now);
    case RecoverStep => RecoverTold(s, e.now);
    case _ => QuietTold(zones, s, e);
  }

  lemma QuietTold(zones: ZoneDb, s: MemoryState, e: Event)
    requires Inv(s) && SpecsParse(s) && Enabled(s, e) && Told(s)
    requires !e.step.LeaseStep? && !e.step.CompleteStep? && !e.step.CancelStep? && !e.step.RecoverStep?
    ensures Told(Apply(zones, s, e))
  {
    hide Inv, SpecsParse, Told, Apply, Enabled, Evolves;
    StepEvolves(zones, s, e);
    OtherStepsAddRuns(zones, s, e);
    OnlyNewRuns(s, Apply(zones, s, e));
  }

  lemma OtherStepsAddRuns(zones: ZoneDb, s: MemoryState, e: Event)
    requires Inv(s) && Enabled(s, e)
    requires !e.step.LeaseStep? && !e.step.CompleteStep? && !e.step.CancelStep? && !e.step.RecoverStep?
    ensures var t := Apply(zones, s, e);
      t.attempts == s.attempts && forall r :: r in s.runs ==> r in t.runs && t.runs[r] == s.runs[r]
  {
    hide Inv, Tick, RegisterDeploy, Heartbeat, Complete, LeaseNext, Cancel, Recover, Enqueue, Replay;
    match e.step
    case Deploy(projectId, params) => DeployAddsNone(s, projectId, params, e.now);
    case HeartbeatStep(p, ttlSecs, active) => HeartbeatAddsNone(s, p, ttlSecs, active, e.now);
    case EnqueueStep(p) => EnqueueAddsOne(s, p, e.now);
    case ReplayStep(sourceId) => ReplayAddsOne(s, sourceId, e.now);
    case TickStep(order) => TickAdds(zones, s, order, e.now);
    case _ =>
  }

  lemma DeployAddsNone(s: MemoryState, projectId: string, params: seq<JobParams>, now: Millis)
    ensures var t := RegisterDeploy(s, projectId, params, now).next; t.attempts == s.attempts && t.runs == s.runs
  {
    hide InsertJobs;
  }

  lemma HeartbeatAddsNone(s: MemoryState, p: RunnerParams, ttlSecs: nat, active: seq<Id>, now: Millis)
    ensures var t := Heartbeat(s, p, ttlSecs, active, now).next; t.attempts == s.attempts && t.runs == s.runs
  {
    hide RenewLeases;
  }

  lemma EnqueueAddsOne(s: MemoryState, p: EnqueueParams, now: Millis)
    requires Inv(s)
    ensures var t := Enqueue(s, p, now).next;
      t.attempts == s.attempts && forall r :: r in s.runs ==> r in t.runs && t.runs[r] == s.runs[r]
  {
    hide RunsOk, AttemptsOk, LeasesOk, Numbered, KeyedRun, KeysAfter, EnqueuedRun;
  }

  lemma ReplayAddsOne(s: MemoryState, sourceId: Id, now: Millis)
    requires Inv(s)
    ensures var t := Replay(s, sourceId, now).next;
      t.attempts == s.attempts && forall r :: r in s.runs ==> r in t.runs && t.runs[r] == s.runs[r]
  {
    hide RunsOk, AttemptsOk, LeasesOk, Numbered;
  }

  lemma {:induction false} ReachableStatesTell(tr: Trace, i: nat)
    requires IsTrace(tr) && i < |tr.states|
    ensures Told(tr.states[i])
  {
    if i > 0 {
      hide Apply, Enabled, Inv, SpecsParse, Told;
      ReachableStatesTell(tr, i - 1);
      ReachableStatesAreLinked(tr, i - 1);
      assert StepAt(tr, i - 1);
      StepTold(tr.zones, tr.states[i - 1], tr.events[i - 1]);
    }
  }

  /** In every reachable state a run's status tells how its attempts went: with an attempt
      made, it is Running, Succeeded, Failed or TimedOut exactly when the latest one is -
      the latter two exactly when no other attempt is to follow - and Queued or Canceled
      only as said below. All attempts before the latest failed or timed out. */
  lemma StatusTellsAttempts(tr: Trace, i: nat, r: Id, a: Id)
    requires IsTrace(tr) && i < |tr.states| && r in tr.states[i].runs
    requires a in tr.states[i].attempts && tr.states[i].attempts[a].runId == r
    ensures var run, attempt := tr.states[i].runs[r], tr.states[i].attempts[a];
      && (attempt.number < run.attemptCount ==> attempt.status.AttemptFailed? || attempt.status.AttemptTimedOut?)
      && (attempt.number == run.attemptCount ==>
            && (run.status.Running? <==> attempt.status.AttemptRunning?)
            && (run.status.Succeeded? <==> attempt.status.AttemptSucceeded?)
            && (run.status.Failed? <==> attempt.status.AttemptFailed? && !TriesAgain(run, attempt.failureClass))
            && (run.status.TimedOut? <==> attempt.status.AttemptTimedOut? && !TriesAgain(run, attempt.failureClass))
            && (attempt.status.AttemptCanceled? ==> run.status.Canceled?)
            && (run.status.Queued? ==>
                  (attempt.status.AttemptFailed? || attempt.status.AttemptTimedOut?) && TriesAgain(run, attempt.failureClass)))
  {
    hide IsTrace, Inv;
    ReachableStatesTell(tr, i);
    assert AttemptTells(tr.states[i], a);
    ReachableStatesAreLinked(tr, i);
  }

  /** A run has succeeded exactly when one of its attempts has, and that is its latest. */
  lemma SucceededExactly(tr: Trace, i: nat, r: Id)
    requires IsTrace(tr) && i < |tr.states| && r in tr.states[i].runs
    ensures tr.states[i].runs[r].status.Succeeded? <==>
      exists a :: a in tr.states[i].attempts && tr.states[i].attempts[a].runId == r && tr.states[i].attempts[a].status.AttemptSucceeded?
    ensures forall a ::
      a in tr.states[i].attempts && tr.states[i].attempts[a].runId == r && tr.states[i].attempts[a].status.AttemptSucceeded?
      ==> tr.states[i].attempts[a].number == tr.states[i].runs[r].attemptCount
  {
    hide IsTrace;
    var s := tr.states[i];
    ReachableStatesTell(tr, i);
    ReachableStatesAreLinked(tr, i);
    assert RunOk(s, s.runs[r]) && UntriedOk(s.runs[r]);
    if s.runs[r].status.Succeeded? {
      assert HasNumber(s, r, s.runs[r].attemptCount);
      var a :| a in s.attempts && s.attempts[a].runId == r && s.attempts[a].number == s.runs[r].attemptCount;
      assert AttemptTells(s, a);
    }
    forall a | a in s.attempts && s.attempts[a].runId == r && s.attempts[a].status.AttemptSucceeded?
      ensures s.runs[r].status.Succeeded? && s.attempts[a].number == s.runs[r].attemptCount
    {
      assert AttemptTells(s, a) && AttemptOk(s, s.attempts[a]);
    }
  }
}
