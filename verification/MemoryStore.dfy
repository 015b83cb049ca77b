/**
 The in-memory store as an object: its maps are fields that the methods update in
 place. Every method is proved against the function of `Transitions` that says which
 state it leaves behind and what it answers, and keeps the store's invariant.
 */
module Store {
  import opened Domain
  import opened RateLimit
  import opened RetryPolicy
  import opened Loads
  import opened Schedule
  import opened Transitions
  import opened Invariant

  class MemoryStore {
    var ids: nat
    var projects: set<string>
    var jobs: map<string, Job>
    var runs: map<Id, Run>
    var attempts: map<Id, Attempt>
    var leases: map<Id, Lease>
    var runners: map<string, Runner>
    var runKeys: map<string, RunKey>
    var health: map<string, FunctionHealth>

    /** The state as a value. */
    function View(): MemoryState
      reads this
    {
      MemoryState(ids, projects, jobs, runs, attempts, leases, runners, runKeys, health)
    }

    ghost predicate Valid()
      reads this
    {
      Inv(View())
    }

    constructor ()
      ensures Valid() && View() == EMPTY
    {
      ids, projects := 0, {};
      jobs, runs, attempts, leases := map[], map[], map[], map[];
      runners, runKeys, health := map[], map[], map[];
    }

    method NextId() returns (id: Id)
      modifies this`ids
      ensures id == old(ids) + 1 == ids
    {
      ids := ids + 1;
      id := ids;
    }

    method RegisterDeploy(projectId: string, params: seq<JobParams>, now: Millis) returns (result: Result<Id>)
      requires Valid()
      modifies this
      ensures Valid()
      ensures Outcome(View(), result) == Transitions.RegisterDeploy(old(View()), projectId, params, now)
    {
      hide Inv;
      ghost var before := View();
      RegisterDeployKeepsInv(before, projectId, params, now);
      if projectId !in projects {
        return Err(ProjectNotFound);
      }
      var deployId := NextId();
      for n := 0 to |params|
        invariant View() == before.(ids := deployId, jobs := InsertJobs(before.jobs, params[..n], projectId, deployId, now))
      {
        jobs := jobs[params[n].id := DeployedJob(params[n], projectId, deployId, now)];
        assert params[..n + 1][..n] == params[..n];
      }
      assert params[..|params|] == params;
      result := Ok(deployId);
    }

    method UpsertRunner(p: RunnerParams, now: Millis) returns (runner: Runner)
      requires Valid()
      modifies this
      ensures Valid()
      ensures View() == RegisterRunner(old(View()), p, now) && runner == RunnerFrom(p, now)
    {
      ghost var before := View();
      runner := RunnerFrom(p, now);
      runners := runners[p.runnerId := runner];
      RebindKeepsInv(before, View());
    }

    method HeartbeatRunner(p: RunnerParams, ttlSecs: nat, active: seq<Id>, now: Millis) returns (result: Result<Runner>)
      requires Valid()
      modifies this
      ensures Valid()
      ensures Outcome(View(), result) == Heartbeat(old(View()), p, ttlSecs, active, now)
    {
      ghost var before := View();
      HeartbeatKeepsInv(before, p, ttlSecs, active, now);
      var runner := UpsertRunner(p, now);
      var expiresAt := SatAdd(now, ttlSecs * 1000);
      var n := 0;
      while n < |active|
        invariant 0 <= n <= |active|
        invariant View() == RegisterRunner(before, p, now).(leases := leases)
        invariant RenewLeases(before.leases, active, p.runnerId, expiresAt)
                  == RenewLeases(leases, active[n..], p.runnerId, expiresAt)
      {
        var leaseId := active[n];
        if leaseId !in leases {
          return Err(LeaseNotFound);
        }
        if leases[leaseId].runnerId != p.runnerId {
          return Err(LeaseNotOwned);
        }
        leases := RenewLease(leases, leaseId, expiresAt);
        n := n + 1;
      }
      result := Ok(runner);
    }

    /** The run behind the key, if the key has not expired; a key found expired is dropped. */
    method LookUpKey(p: EnqueueParams, now: Millis) returns (run: Option<Run>)
      modifies this`runKeys
      ensures run == KeyedRun(old(View()), p, now)
      ensures run.Some? ==> runKeys == old(runKeys)
      ensures p.key.None? ==> runKeys == old(runKeys)
      ensures p.key.Some? ==>
        runKeys == old(runKeys) || runKeys == old(runKeys) - {KeyScope(p.projectId, p.jobId, p.key.value)}
    {
      hide KeyScope;
      if p.key.Some? {
        var scope := KeyScope(p.projectId, p.jobId, p.key.value);
        if scope in runKeys {
          var existing := runKeys[scope];
          if existing.expiresAt > now && existing.runId in runs {
            return Some(runs[existing.runId]);
          }
          runKeys := runKeys - {scope};
        }
      }
      run := None;
    }

    method CreateRun(p: EnqueueParams, job: Job, now: Millis) returns (run: Run)
      modifies this`ids, this`runs, this`runKeys
      ensures run == EnqueuedRun(old(ids) + 1, job, p, now)
      ensures ids == old(ids) + 1 && runs == old(runs)[ids := run]
      ensures runKeys == KeysAfter(old(runKeys), p, ids, now)
    {
      hide KeyScope;
      var id := NextId();
      run := EnqueuedRun(id, job, p, now);
      if p.key.Some? {
        runKeys := runKeys[KeyScope(p.projectId, p.jobId, p.key.value) := RunKey(id, now, now + KEY_RETENTION_MS)];
      }
      runs := runs[id := run];
    }

    method EnqueueRun(p: EnqueueParams, now: Millis) returns (result: Result<EnqueueResult>)
      requires Valid()
      modifies this
      ensures Valid()
      ensures Outcome(View(), result) == Enqueue(old(View()), p, now)
    {
      hide Inv, KeyScope, KeyedRun;
      ghost var before := View();
      EnqueueKeepsInv(before, p, now);
      if p.jobId !in jobs {
        return Err(JobNotFound);
      }
      var job := jobs[p.jobId];
      if !job.enabled {
        return Err(JobDisabled);
      }
      if job.projectId != p.projectId || job.deployId != p.deployId {
        return Err(JobMismatch);
      }
      var existing := LookUpKey(p, now);
      if existing.Some? {
        return Ok(EnqueueResult(existing.value, true));
      }
      assert KeysAfter(runKeys, p, ids + 1, now) == KeysAfter(before.runKeys, p, ids + 1, now);
      var run := CreateRun(p, job, now);
      result := Ok(EnqueueResult(run, false));
    }

    method ReplayRun(sourceId: Id, now: Millis) returns (result: Result<Run>)
      requires Valid()
      modifies this
      ensures Valid()
      ensures Outcome(View(), result) == Replay(old(View()), sourceId, now)
    {
      hide Inv;
      ReplayKeepsInv(View(), sourceId, now);
      if sourceId !in runs {
        return Err(RunNotFound);
      }
      var source := runs[sourceId];
      var id := NextId();
      var replay := Run(id, source.projectId, source.jobId, source.deployId, Replayed, Queued, 0,
                        source.maxAttempts, now, None, None, None, Some(source.id));
      runs := runs[id := replay];
      result := Ok(replay);
    }

    /** Collects the lost attempts, then takes them one by one. */
    method RecoverLostAttempts(now: Millis) returns (recovered: set<Id>)
      requires Valid()
      modifies this
      ensures Valid()
      ensures View() == Recover(old(View()), now)
      ensures recovered == (set a | a in LostAttempts(old(View()), now) :: old(View()).attempts[a].runId)
    {
      hide Inv, TakeAttempts, Lost, RunAfterLoss;
      ghost var before := View();
      RecoverKeepsInv(before, now);
      var lost := set a | a in attempts && Lost(View(), attempts[a], now);
      assert lost == LostAttempts(before, now);
      var left := lost;
      recovered := {};
      LostAreRunning(before, now);
      TakeNone(before, now);
      assert lost - left == {};
      while left != {}
        invariant left <= lost
        invariant View() == TakeAttempts(before, lost - left, now)
        invariant recovered == set a | a in lost - left :: before.attempts[a].runId
        decreases left
      {
        var a :| a in left;
        ghost var taken := lost - left;
        TakeOneMore(before, taken, a, now);
        var attempt := FailedByRecovery(attempts[a], now);
        attempts := attempts[a := attempt];
        var leaseId := attempt.leaseId.value;
        leases := leases[leaseId := leases[leaseId].(releasedAt := Some(now))];
        runs := runs[attempt.runId := RunAfterLoss(runs[attempt.runId])];
        recovered := recovered + {attempt.runId};
        left := left - {a};
        assert lost - left == taken + {a};
      }
      assert lost - left == lost;
    }

    /** Scans the runs in whatever order the map yields them, up to the first one that can
        be leased or that cannot be judged. */
    method SelectRun(runner: Runner, now: Millis) returns (pick: Pick)
      requires Valid() && runner.id in runners && runners[runner.id] == runner
      ensures PickAllowed(View(), runner.id, now, pick)
    {
      hide Inv, Judge;
      var unseen := runs.Keys;
      while unseen != {}
        invariant unseen <= runs.Keys
        invariant forall r :: r in runs && r !in unseen ==> Judge(View(), runs[r], runner, now).Skipped?
        decreases unseen
      {
        var r :| r in unseen;
        match Judge(View(), runs[r], runner, now)
        case Leasable => return PickRun(r);
        case Broken(e) => return ScanFailed(e);
        case Skipped => unseen := unseen - {r};
      }
      pick := NoRun;
    }

    /** Opens the next attempt of a queued run under a new lease. */
    method GrantLease(runId: Id, runnerId: string, ttlSecs: nat, now: Millis) returns (leased: Leased)
      requires Valid() && runId in runs && runs[runId].status.Queued?
      modifies this
      ensures Valid()
      ensures leased == Grant(old(View()), runId, runnerId, ttlSecs, now)
      ensures View() == AfterGrant(old(View()), leased)
    {
      hide Inv;
      GrantKeepsInv(View(), runId, runnerId, ttlSecs, now);
      var run := runs[runId];
      var attemptId := NextId();
      var leaseId := NextId();
      var attempt := Attempt(attemptId, runId, run.attemptCount + 1, AttemptRunning, Some(leaseId), Some(runnerId),
                             now, None, None, None);
      var lease := Lease(leaseId, attemptId, runnerId, now + ttlSecs * 1000, None, None, None);
      leased := Leased(LeasedRun(run), attempt, lease);
      runs := runs[runId := leased.run];
      attempts := attempts[attemptId := attempt];
      leases := leases[leaseId := lease];
    }

    method LeaseNextAttempt(runnerId: string, ttlSecs: nat, now: Millis)
      returns (result: Result<Option<Leased>>, ghost pick: Pick)
      requires Valid()
      modifies this
      ensures Valid()
      ensures LeasePickAllowed(old(View()), runnerId, now, pick)
      ensures Outcome(View(), result) == LeaseNext(old(View()), runnerId, ttlSecs, now, pick)
    {
      hide Judge, Recover, Load, RunsOk, AttemptsOk, LeasesOk, Numbered;
      pick := NoRun;
      var _ := RecoverLostAttempts(now);
      if runnerId !in runners {
        return Err(RunnerNotRegistered), pick;
      }
      var runner := runners[runnerId];
      if Load(View(), RunnerSlots(runnerId)) >= runner.maxConcurrentLeases {
        return Ok(None), pick;
      }
      var selected := SelectRun(runner, now);
      pick := selected;
      match selected
      case NoRun => result := Ok(None);
      case ScanFailed(e) => result := Err(e);
      case PickRun(r) =>
        LeasableIsQueued(View(), r, runner, now);
        var leased := GrantLease(r, runnerId, ttlSecs, now);
        result := Ok(Some(leased));
    }

    /** The service sees to parseable specs, and gum's runner only reports terminal
        statuses; without either the code leaves the store half written, as `Complete`
        shows. */
    method CompleteAttempt(p: CompleteParams, hash: nat, now: Millis) returns (result: Result<(Attempt, Run)>)
      requires Valid()
      modifies this
      ensures p.status.Terminal() && SpecsParse(old(View())) ==> Valid()
      ensures Outcome(View(), result) == Complete(old(View()), p, hash, now)
    {
      hide Inv, SpecsParse, AfterSignal, ComputeDisposition, DisposedRun, ParseRateLimitSpec, Preflight;
      ghost var before := View();
      CompleteKeepsValid(before, p, hash, now);
      var refused := Preflight(View(), p, now);
      if refused.Some? {
        return Err(refused.value);
      }
      PassedHasLease(before, p, now);
      var attempt := FinishedAttempt(attempts[p.attemptId], p, now);
      var leaseId := attempt.leaseId.value;
      attempts := attempts[p.attemptId := attempt];
      leases := leases[leaseId := leases[leaseId].(ackedAt := Some(now), releasedAt := Some(now))];
      assert View() == AckAttempt(before, p, now);
      if attempt.runId !in runs {
        return Err(RunNotFound);
      }
      var run := runs[attempt.runId];
      if run.jobId !in jobs {
        return Err(JobNotFound);
      }
      var job := jobs[run.jobId];
      if job.rateLimitSpec.Some? && ParseRateLimitSpec(job.rateLimitSpec.value).Err? {
        return Err(BadRateLimit);
      }
      var signaled := AfterSignal(HealthOf(View(), job.id), job.id, p.failureClass, p.status, now);
      health := health[job.id := signaled];
      var d := ComputeDisposition(run.attemptCount, run.maxAttempts, p.status, p.failureClass, Some(signaled), hash, now);
      if !p.status.Terminal() {
        return Err(StatusNotTerminal);
      }
      var done := DisposedRun(run, d);
      runs := runs[attempt.runId := done];
      result := Ok((attempt, done));
    }

    method CancelRun(runId: Id, requestedAt: Millis) returns (result: Result<Run>)
      requires Valid()
      modifies this
      ensures Valid()
      ensures Outcome(View(), result) == Cancel(old(View()), runId, requestedAt)
    {
      hide Inv, FindRunning;
      ghost var before := View();
      CancelKeepsInv(before, runId, requestedAt);
      if runId !in runs {
        return Err(RunNotFound);
      }
      var run := runs[runId];
      match run.status
      case Queued =>
        var canceled := run.(status := Canceled, failureClass := None, retryAfter := None, waitingFor := None);
        runs := runs[runId := canceled];
        result := Ok(canceled);
      case Running =>
        RunningRunsAreLeased(before, runId);
        OneRunningAttempt(before, runId);
        var a :| a in attempts && RunsFor(attempts[a], runId);
        var attempt := attempts[a];
        attempts := attempts[a := attempt.(cancelRequestedAt := Some(requestedAt))];
        if attempt.leaseId.Some? && attempt.leaseId.value in leases {
          var leaseId := attempt.leaseId.value;
          leases := leases[leaseId := leases[leaseId].(revokeRequestedAt := Some(requestedAt))];
        }
        runs := runs[runId := run.(failureClass := None)];
        result := Ok(runs[runId]);
      case _ =>
        result := Err(RunFinished);
    }

    /** Creates the runs of one job that are due and not there yet. */
    method ScheduleJob(job: Job, due: seq<Millis>)
      requires Valid() && job.id in jobs
      modifies this`ids, this`runs
      ensures Valid()
      ensures View() == ScheduleRuns(old(View()), job, due)
    {
      hide Inv, AlreadyScheduled;
      ghost var before := View();
      ScheduleRunsKeepsInv(before, job, due);
      for n := 0 to |due|
        invariant View() == ScheduleRuns(before, job, due[..n])
      {
        assert due[..n + 1][..n] == due[..n];
        if !AlreadyScheduled(View(), job.id, due[n]) {
          var id := NextId();
          runs := runs[id := NewRun(id, job, job.projectId, job.deployId, Scheduled, due[n], None)];
        }
      }
      assert due[..|due|] == due;
    }

    /** Visits the scheduled jobs in whatever order the map yields them. */
    method TickSchedules(zones: ZoneDb, now: Millis) returns (result: Result<()>, ghost order: seq<string>)
      requires Valid() && now < I64_MAX
      modifies this
      ensures Valid()
      ensures result.Ok? ==> TickOrder(old(View()), order)
      ensures Outcome(View(), result) == Tick(zones, old(View()), order, now)
    {
      hide DueTimes, LatestScheduled, ScheduleRuns, Tick, RunsOk, AttemptsOk, LeasesOk, Numbered;
      ghost var before := View();
      order := [];
      TickOneMore(zones, before, [], "", now);
      var left := set j | j in jobs && HasSchedule(jobs[j]);
      ghost var all := left;
      while left != {}
        invariant left <= all && Valid() && jobs == before.jobs
        invariant forall i, k :: 0 <= i < k < |order| ==> order[i] != order[k]
        invariant forall j :: j in order <==> j in all - left
        invariant Outcome(View(), Ok(())) == Tick(zones, before, order, now)
        decreases left
      {
        var jobId :| jobId in left;
        assert jobId !in order;
        left := left - {jobId};
        var job := jobs[jobId];
        TickOneMore(zones, before, order, jobId, now);
        order := order + [jobId];
        var due := RecurringDueTimes(zones, job.scheduleExpr.value, job.createdAt, LatestScheduled(View(), job.id), now);
        if due.Err? {
          return Err(due.error), order;
        }
        ScheduleRunsKeepsInv(View(), job, due.value);
        ScheduleJob(job, due.value);
      }
      result := Ok(());
    }
  }

  lemma CompleteKeepsValid(s: MemoryState, p: CompleteParams, hash: nat, now: Millis)
    requires Inv(s)
    ensures p.status.Terminal() && SpecsParse(s) ==> Inv(Complete(s, p, hash, now).next)
  {
    hide Inv, Complete;
    if p.status.Terminal() && SpecsParse(s) {
      CompleteKeepsInv(s, p, hash, now);
    }
  }

  lemma PassedHasLease(s: MemoryState, p: CompleteParams, now: Millis)
    requires Preflight(s, p, now).None?
    ensures p.attemptId in s.attempts && s.attempts[p.attemptId].leaseId.Some?
    ensures s.attempts[p.attemptId].leaseId.value in s.leases
  {}

  lemma LeasableIsQueued(s: MemoryState, r: Id, runner: Runner, now: Millis)
    requires r in s.runs && Judge(s, s.runs[r], runner, now).Leasable?
    ensures s.runs[r].status.Queued?
  {}

  // ----- Lemmas for the loops -----

  /** One more job at the end of the order. */
  lemma TickOneMore(zones: ZoneDb, s: MemoryState, order: seq<string>, jobId: string, now: Millis)
    requires now < I64_MAX
    ensures Tick(zones, s, [], now) == Outcome(s, Ok(()))
    ensures var before, after := Tick(zones, s, order, now), Tick(zones, s, order + [jobId], now);
      before.result.Ok? && jobId in s.jobs && s.jobs[jobId].scheduleExpr.Some? ==>
        match JobDue(zones, before.next, s.jobs[jobId], now)
        case Err(e) => after == Outcome(before.next, Err(e))
        case Ok(due) => after == Outcome(ScheduleRuns(before.next, s.jobs[jobId], due), Ok(()))
  {
    assert (order + [jobId])[..|order|] == order;
  }

  lemma LostAreRunning(s: MemoryState, now: Millis)
    ensures forall a :: a in LostAttempts(s, now) ==> a in s.attempts && s.attempts[a].status.AttemptRunning?
  {}

  lemma TakeNone(s: MemoryState, now: Millis)
    ensures TakeAttempts(s, {}, now) == s
  {
    var t := TakeAttempts(s, {}, now);
    assert t.attempts == s.attempts && t.leases == s.leases && t.runs == s.runs;
  }

  /** Taking one more lost attempt touches that attempt, its lease and its run only. */
  lemma TakeOneMore(s: MemoryState, taken: set<Id>, a: Id, now: Millis)
    requires Inv(s) && a in s.attempts && s.attempts[a].status.AttemptRunning? && a !in taken
    requires forall b :: b in taken ==> b in s.attempts && s.attempts[b].status.AttemptRunning?
    ensures s.attempts[a].leaseId.Some?
    ensures var t, l, r := TakeAttempts(s, taken, now), s.attempts[a].leaseId.value, s.attempts[a].runId;
      && a in t.attempts && t.attempts[a] == s.attempts[a] && l in t.leases && r in t.runs
      && TakeAttempts(s, taken + {a}, now) == t.(
           attempts := t.attempts[a := FailedByRecovery(t.attempts[a], now)],
           leases := t.leases[l := t.leases[l].(releasedAt := Some(now))],
           runs := t.runs[r := RunAfterLoss(t.runs[r])])
  {
    TakenTogether(s, taken, a);
    var t, u := TakeAttempts(s, taken, now), TakeAttempts(s, taken + {a}, now);
    var l, r := s.attempts[a].leaseId.value, s.attempts[a].runId;
    forall k | k in s.leases
      ensures LeaseTaken(s, taken + {a}, k) <==> LeaseTaken(s, taken, k) || k == l
    {
      if LeaseTaken(s, taken, k) {
        var b :| b in taken && b in s.attempts && s.attempts[b].leaseId == Some(k);
        assert b in taken + {a};
      }
      assert a in taken + {a};
    }
    forall k | k in s.runs
      ensures RunTaken(s, taken + {a}, k) <==> RunTaken(s, taken, k) || k == r
    {
      if RunTaken(s, taken, k) {
        var b :| b in taken && b in s.attempts && s.attempts[b].runId == k;
        assert b in taken + {a};
      }
      assert a in taken + {a};
    }
    assert u.attempts == t.attempts[a := FailedByRecovery(t.attempts[a], now)];
    assert u.leases == t.leases[l := t.leases[l].(releasedAt := Some(now))];
    assert u.runs == t.runs[r := RunAfterLoss(t.runs[r])];
  }

  /** Searching by id finds the one running attempt there is. */
  lemma OneRunningAttempt(s: MemoryState, r: Id)
    requires Inv(s) && r in s.runs && s.runs[r].status.Running?
    ensures FindRunning(s, r, s.ids + 1).Some?
    ensures forall a :: a in s.attempts && RunsFor(s.attempts[a], r) ==> FindRunning(s, r, s.ids + 1) == Some(a)
  {
    RunningRunsAreLeased(s, r);
  }
}
