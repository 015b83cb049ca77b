/**
 The invariant that ties runs, attempts and leases together, and the proof that every
 call of the store keeps it.
 */
module Invariant {
  import opened Domain
  import opened RateLimit
  import opened Loads
  import opened Schedule
  import opened Transitions

  /** Records sit under their own ids, and the counter is past every id it handed out. */
  ghost predicate Keyed(s: MemoryState) {
    && (forall j :: j in s.jobs ==> s.jobs[j].id == j)
    && (forall w :: w in s.runners ==> s.runners[w].id == w)
    && (forall r :: r in s.runs ==> s.runs[r].id == r && r <= s.ids)
    && (forall a :: a in s.attempts ==> s.attempts[a].id == a && a <= s.ids)
    && (forall l :: l in s.leases ==> s.leases[l].id == l && l <= s.ids)
  }

  predicate RunOk(s: MemoryState, run: Run) {
    && run.jobId in s.jobs
    && 1 <= run.maxAttempts
    && run.attemptCount <= run.maxAttempts
    && (run.status.Queued? ==> run.attemptCount < run.maxAttempts)
    && (run.status.Running? ==> run.attemptCount >= 1)
  }

  /** An attempt is running exactly while it is the latest attempt of a running run, and
      then its lease is open; once finished it stays finished and its lease is released. */
  predicate AttemptOk(s: MemoryState, attempt: Attempt) {
    && attempt.runId in s.runs
    && 1 <= attempt.number <= s.runs[attempt.runId].attemptCount
    && attempt.leaseId.Some? && attempt.leaseId.value in s.leases
    && var lease := s.leases[attempt.leaseId.value];
       var run := s.runs[attempt.runId];
       && lease.attemptId == attempt.id
       && attempt.runnerId == Some(lease.runnerId)
       && (attempt.status.AttemptRunning? || attempt.status.Terminal())
       && (attempt.status.AttemptRunning? <==> run.status.Running? && attempt.number == run.attemptCount)
       && (attempt.status.AttemptRunning? <==> lease.Open())
       && (attempt.status.AttemptRunning? <==> attempt.finishedAt.None?)
  }

  predicate LeaseOk(s: MemoryState, lease: Lease) {
    lease.attemptId in s.attempts && s.attempts[lease.attemptId].leaseId == Some(lease.id)
  }

  predicate HasNumber(s: MemoryState, runId: Id, k: nat) {
    exists a :: a in s.attempts && s.attempts[a].runId == runId && s.attempts[a].number == k
  }

  predicate SameSlot(x: Attempt, y: Attempt) { x.runId == y.runId && x.number == y.number }

  /** The attempts of a run are numbered 1 .. attemptCount, each number once. */
  ghost predicate Numbered(s: MemoryState) {
    && (forall a, b {:trigger SameSlot(s.attempts[a], s.attempts[b])} ::
          a in s.attempts && b in s.attempts && SameSlot(s.attempts[a], s.attempts[b]) ==> a == b)
    && (forall r, k: nat {:trigger HasNumber(s, r, k)} ::
          r in s.runs && 1 <= k <= s.runs[r].attemptCount ==> HasNumber(s, r, k))
  }

  ghost predicate RunsOk(s: MemoryState) {
    forall r {:trigger RunOk(s, s.runs[r])} :: r in s.runs ==> RunOk(s, s.runs[r])
  }

  ghost predicate AttemptsOk(s: MemoryState) {
    forall a {:trigger AttemptOk(s, s.attempts[a])} :: a in s.attempts ==> AttemptOk(s, s.attempts[a])
  }

  ghost predicate LeasesOk(s: MemoryState) {
    forall l {:trigger LeaseOk(s, s.leases[l])} :: l in s.leases ==> LeaseOk(s, s.leases[l])
  }


  ghost predicate Inv(s: MemoryState) {
    && Keyed(s)
    && RunsOk(s)
    && AttemptsOk(s)
    && LeasesOk(s)
    && Numbered(s)
    && HealthKeyed(s)
  }

  ghost predicate HealthKeyed(s: MemoryState) {
    forall j :: j in s.health ==> s.health[j].jobId == j
  }

  lemma EmptyKeepsInv()
    ensures Inv(EMPTY)
  {}

  // ----- What the invariant says -----

  /** A run is running exactly when it has a running attempt, that attempt is the only
      one, and its lease exists, points back at it, names its runner and is open. */
  lemma RunningRunsAreLeased(s: MemoryState, r: Id)
    requires Inv(s) && r in s.runs
    ensures s.runs[r].status.Running? <==> exists a :: a in s.attempts && RunsFor(s.attempts[a], r)
    ensures forall a, b :: a in s.attempts && b in s.attempts && RunsFor(s.attempts[a], r) && RunsFor(s.attempts[b], r)
              ==> a == b
    ensures forall a :: a in s.attempts && RunsFor(s.attempts[a], r) ==>
      && s.attempts[a].leaseId.Some? && s.attempts[a].leaseId.value in s.leases
      && s.leases[s.attempts[a].leaseId.value].attemptId == a
      && s.leases[s.attempts[a].leaseId.value].Open()
      && s.attempts[a].runnerId == Some(s.leases[s.attempts[a].leaseId.value].runnerId)
  {
    assert forall a :: a in s.attempts ==> AttemptOk(s, s.attempts[a]);
    forall a, b | a in s.attempts && b in s.attempts && RunsFor(s.attempts[a], r) && RunsFor(s.attempts[b], r)
      ensures a == b
    {
      assert SameSlot(s.attempts[a], s.attempts[b]);
    }
    if s.runs[r].status.Running? {
      RunningHasAttempt(s, r);
    }
  }

  lemma RunningHasAttempt(s: MemoryState, r: Id)
    requires Inv(s) && r in s.runs && s.runs[r].status.Running?
    ensures exists a :: a in s.attempts && RunsFor(s.attempts[a], r) && s.attempts[a].number == s.runs[r].attemptCount
  {
    var run := s.runs[r];
    assert RunOk(s, run);
    assert HasNumber(s, r, run.attemptCount);
    var a :| a in s.attempts && s.attempts[a].runId == r && s.attempts[a].number == run.attemptCount;
    assert AttemptOk(s, s.attempts[a]);
  }

  // ----- Every call keeps it -----

  predicate SameAttempt(x: Attempt, y: Attempt) {
    && x.id == y.id && x.runId == y.runId && x.number == y.number
    && x.leaseId == y.leaseId && x.runnerId == y.runnerId && x.startedAt == y.startedAt
  }

  predicate SameLease(x: Lease, y: Lease) { x.id == y.id && x.attemptId == y.attemptId && x.runnerId == y.runnerId }

  predicate SameRun(x: Run, y: Run) {
    && x.id == y.id && x.jobId == y.jobId && x.trigger == y.trigger && x.scheduledAt == y.scheduledAt
    && x.attemptCount == y.attemptCount && x.maxAttempts == y.maxAttempts
  }

  /** The same records with the same links; statuses and times may differ. */
  ghost predicate SameShape(s: MemoryState, t: MemoryState) {
    && t.ids == s.ids && t.jobs == s.jobs
    && t.runs.Keys == s.runs.Keys && t.attempts.Keys == s.attempts.Keys && t.leases.Keys == s.leases.Keys
    && (forall r :: r in s.runs ==> SameRun(s.runs[r], t.runs[r]))
    && (forall a :: a in s.attempts ==> SameAttempt(s.attempts[a], t.attempts[a]))
    && (forall l :: l in s.leases ==> SameLease(s.leases[l], t.leases[l]))
  }

  /** With the shape unchanged only the statuses have to be looked at again. */
  lemma SameShapeKeepsInv(s: MemoryState, t: MemoryState)
    requires Inv(s) && SameShape(s, t)
    requires forall w :: w in t.runners ==> t.runners[w].id == w
    requires RunsOk(t) && AttemptsOk(t) && HealthKeyed(t)
    ensures Inv(t)
  {
    forall l | l in t.leases
      ensures LeaseOk(t, t.leases[l])
    {
      assert LeaseOk(s, s.leases[l]);
    }
    forall a, b | a in t.attempts && b in t.attempts && SameSlot(t.attempts[a], t.attempts[b])
      ensures a == b
    {
      assert SameSlot(s.attempts[a], s.attempts[b]);
    }
    forall r, k: nat | r in t.runs && 1 <= k <= t.runs[r].attemptCount
      ensures HasNumber(t, r, k)
    {
      assert HasNumber(s, r, k);
      var a :| a in s.attempts && s.attempts[a].runId == r && s.attempts[a].number == k;
      assert SameAttempt(s.attempts[a], t.attempts[a]);
    }
  }

  /** Jobs, runners, run keys and health do not matter to the links, as long as no job
      disappears. */
  lemma RebindKeepsInv(s: MemoryState, t: MemoryState)
    requires Inv(s) && s.ids <= t.ids
    requires t.runs == s.runs && t.attempts == s.attempts && t.leases == s.leases
    requires s.jobs.Keys <= t.jobs.Keys
    requires forall j :: j in t.jobs ==> t.jobs[j].id == j
    requires forall w :: w in t.runners ==> t.runners[w].id == w
    requires HealthKeyed(t)
    ensures Inv(t)
  {
    hide SameSlot;
    assert forall r :: r in t.runs ==> RunOk(s, t.runs[r]);
    assert forall a :: a in t.attempts ==> AttemptOk(s, t.attempts[a]);
    assert forall l :: l in t.leases ==> LeaseOk(s, t.leases[l]);
    forall r, k: nat | r in t.runs && 1 <= k <= t.runs[r].attemptCount
      ensures HasNumber(t, r, k)
    {
      assert HasNumber(s, r, k);
    }
  }

  lemma {:induction false} InsertJobsKeyed(jobs: map<string, Job>, params: seq<JobParams>, projectId: string, deployId: Id, now: Millis)
    requires forall j :: j in jobs ==> jobs[j].id == j
    ensures var next := InsertJobs(jobs, params, projectId, deployId, now);
      jobs.Keys <= next.Keys && forall j :: j in next ==> next[j].id == j
    decreases |params|
  {
    if params != [] {
      InsertJobsKeyed(jobs, params[..|params| - 1], projectId, deployId, now);
    }
  }

  lemma RegisterDeployKeepsInv(s: MemoryState, projectId: string, params: seq<JobParams>, now: Millis)
    requires Inv(s)
    ensures Inv(RegisterDeploy(s, projectId, params, now).next)
  {
    if projectId in s.projects {
      InsertJobsKeyed(s.jobs, params, projectId, s.ids + 1, now);
      RebindKeepsInv(s, RegisterDeploy(s, projectId, params, now).next);
    }
  }

  /** A fresh queued run with no attempts yet. */
  lemma AddRunKeepsInv(s: MemoryState, run: Run, t: MemoryState)
    requires Inv(s)
    requires run.id == s.ids + 1 && run.status.Queued? && run.attemptCount == 0 && 1 <= run.maxAttempts && run.jobId in s.jobs
    requires t == s.(ids := s.ids + 1, runs := s.runs[run.id := run], runKeys := t.runKeys)
    ensures Inv(t)
  {
    hide RunsOk, AttemptsOk, LeasesOk, Numbered;
    AddedIsOk(s, run, t);
    AddedIsNumbered(s, run, t);
  }

  lemma AddedIsOk(s: MemoryState, run: Run, t: MemoryState)
    requires RunsOk(s) && AttemptsOk(s) && LeasesOk(s) && run.id !in s.runs
    requires run.status.Queued? && run.attemptCount == 0 && 1 <= run.maxAttempts && run.jobId in s.jobs
    requires t == s.(ids := t.ids, runs := s.runs[run.id := run], runKeys := t.runKeys)
    ensures RunsOk(t) && AttemptsOk(t) && LeasesOk(t)
  {
    assert forall r :: r in s.runs ==> RunOk(s, s.runs[r]);
    forall a | a in t.attempts
      ensures AttemptOk(t, t.attempts[a])
    {
      assert AttemptOk(s, s.attempts[a]);
    }
    assert forall l :: l in t.leases ==> LeaseOk(s, t.leases[l]);
  }

  lemma AddedIsNumbered(s: MemoryState, run: Run, t: MemoryState)
    requires Numbered(s) && t.attempts == s.attempts && t.runs == s.runs[run.id := run] && run.attemptCount == 0
    ensures Numbered(t)
  {
    forall r, k: nat | r in t.runs && 1 <= k <= t.runs[r].attemptCount
      ensures HasNumber(t, r, k)
    {
      assert HasNumber(s, r, k);
    }
  }

  lemma EnqueueKeepsInv(s: MemoryState, p: EnqueueParams, now: Millis)
    requires Inv(s)
    ensures Inv(Enqueue(s, p, now).next)
  {
    var o := Enqueue(s, p, now);
    if o.result.Ok? && !o.result.value.deduped {
      AddRunKeepsInv(s, o.result.value.run, o.next);
    }
  }

  lemma ReplayKeepsInv(s: MemoryState, sourceId: Id, now: Millis)
    requires Inv(s)
    ensures Inv(Replay(s, sourceId, now).next)
  {
    var o := Replay(s, sourceId, now);
    if o.result.Ok? {
      assert RunOk(s, s.runs[sourceId]);
      AddRunKeepsInv(s, o.result.value, o.next);
    }
  }

  lemma {:induction false} ScheduleRunsKeepsInv(s: MemoryState, job: Job, due: seq<Millis>)
    requires Inv(s) && job.id in s.jobs
    ensures Inv(ScheduleRuns(s, job, due)) && ScheduleRuns(s, job, due).jobs == s.jobs
    decreases |due|
  {
    if due != [] {
      ScheduleRunsKeepsInv(s, job, due[..|due| - 1]);
      var t, at := ScheduleRuns(s, job, due[..|due| - 1]), due[|due| - 1];
      if !AlreadyScheduled(t, job.id, at) {
        var u := AddScheduledRun(t, job, at);
        AddRunKeepsInv(t, u.runs[t.ids + 1], u);
      }
    }
  }

  lemma {:induction false} TickKeepsInv(zones: ZoneDb, s: MemoryState, order: seq<string>, now: Millis)
    requires Inv(s) && now < I64_MAX
    ensures Inv(Tick(zones, s, order, now).next) && Tick(zones, s, order, now).next.jobs == s.jobs
    decreases |order|
  {
    if order != [] {
      TickKeepsInv(zones, s, order[..|order| - 1], now);
      var before := Tick(zones, s, order[..|order| - 1], now);
      var jobId := order[|order| - 1];
      if before.result.Ok? && jobId in s.jobs && s.jobs[jobId].scheduleExpr.Some? {
        match JobDue(zones, before.next, s.jobs[jobId], now)
        case Err(_) =>
        case Ok(due) => ScheduleRunsKeepsInv(before.next, s.jobs[jobId], due);
      }
    }
  }

  /** Leases whose expiry alone has moved. */
  ghost predicate OnlyRenewed(before: map<Id, Lease>, after: map<Id, Lease>) {
    && after.Keys == before.Keys
    && forall l :: l in before ==> after[l] == before[l].(expiresAt := after[l].expiresAt)
  }

  lemma {:induction false} RenewLeasesOnlyRenews(leases: map<Id, Lease>, ids: seq<Id>, runnerId: string, expiresAt: Millis)
    ensures OnlyRenewed(leases, RenewLeases(leases, ids, runnerId, expiresAt).0)
    decreases |ids|
  {
    if ids != [] && ids[0] in leases && leases[ids[0]].runnerId == runnerId {
      RenewLeasesOnlyRenews(RenewLease(leases, ids[0], expiresAt), ids[1..], runnerId, expiresAt);
    }
  }

  lemma HeartbeatKeepsInv(s: MemoryState, p: RunnerParams, ttlSecs: nat, active: seq<Id>, now: Millis)
    requires Inv(s)
    ensures Inv(Heartbeat(s, p, ttlSecs, active, now).next)
  {
    var t := Heartbeat(s, p, ttlSecs, active, now).next;
    RenewLeasesOnlyRenews(s.leases, active, p.runnerId, SatAdd(now, ttlSecs * 1000));
    forall r | r in t.runs
      ensures RunOk(t, t.runs[r])
    {
      assert RunOk(s, s.runs[r]);
    }
    forall a | a in t.attempts
      ensures AttemptOk(t, t.attempts[a])
    {
      assert AttemptOk(s, s.attempts[a]);
    }
    SameShapeKeepsInv(s, t);
  }

  /** Failing any set of running attempts as lost. */
  lemma TakeAttemptsKeepsInv(s: MemoryState, taken: set<Id>, now: Millis)
    requires Inv(s)
    requires forall a :: a in taken ==> a in s.attempts && s.attempts[a].status.AttemptRunning?
    ensures Inv(TakeAttempts(s, taken, now))
  {
    hide TakeAttempts, AttemptOk, RunOk, Numbered, LeasesOk;
    var t := TakeAttempts(s, taken, now);
    TakenKeepsShape(s, taken, now);
    forall r | r in t.runs
      ensures RunOk(t, t.runs[r])
    {
      TakenRunOk(s, taken, now, r);
    }
    forall a | a in t.attempts
      ensures AttemptOk(t, t.attempts[a])
    {
      TakenAttemptOk(s, taken, now, a);
    }
    SameShapeKeepsInv(s, t);
  }

  lemma TakenKeepsShape(s: MemoryState, taken: set<Id>, now: Millis)
    ensures var t := TakeAttempts(s, taken, now);
      SameShape(s, t) && t.runners == s.runners && t.health == s.health
  {
    hide LeaseTaken, RunTaken;
  }

  lemma TakenRunOk(s: MemoryState, taken: set<Id>, now: Millis, r: Id)
    requires Inv(s) && r in s.runs
    ensures RunOk(TakeAttempts(s, taken, now), TakeAttempts(s, taken, now).runs[r])
  {
    assert RunOk(s, s.runs[r]);
  }

  lemma TakenAttemptOk(s: MemoryState, taken: set<Id>, now: Millis, a: Id)
    requires Inv(s) && a in s.attempts
    requires forall b :: b in taken ==> b in s.attempts && s.attempts[b].status.AttemptRunning?
    ensures AttemptOk(TakeAttempts(s, taken, now), TakeAttempts(s, taken, now).attempts[a])
  {
    TakenTogether(s, taken, a);
    assert RunOk(s, s.runs[s.attempts[a].runId]);
  }

  /** An attempt, its lease and (if it runs) its run are taken together or not at all. */
  lemma TakenTogether(s: MemoryState, taken: set<Id>, a: Id)
    requires Inv(s) && a in s.attempts
    requires forall b :: b in taken ==> b in s.attempts && s.attempts[b].status.AttemptRunning?
    ensures AttemptOk(s, s.attempts[a])
    ensures LeaseTaken(s, taken, s.attempts[a].leaseId.value) <==> a in taken
    ensures a in taken ==> RunTaken(s, taken, s.attempts[a].runId)
    ensures s.attempts[a].status.AttemptRunning? && RunTaken(s, taken, s.attempts[a].runId) ==> a in taken
  {
    assert AttemptOk(s, s.attempts[a]);
    var l := s.attempts[a].leaseId.value;
    if LeaseTaken(s, taken, l) {
      var b :| b in taken && b in s.attempts && s.attempts[b].leaseId == Some(l);
      assert AttemptOk(s, s.attempts[b]);
    }
    if s.attempts[a].status.AttemptRunning? && RunTaken(s, taken, s.attempts[a].runId) {
      var b :| b in taken && b in s.attempts && s.attempts[b].runId == s.attempts[a].runId;
      assert AttemptOk(s, s.attempts[b]);
      assert SameSlot(s.attempts[a], s.attempts[b]);
    }
  }

  lemma RecoverKeepsInv(s: MemoryState, now: Millis)
    requires Inv(s)
    ensures Inv(Recover(s, now))
  {
    TakeAttemptsKeepsInv(s, LostAttempts(s, now), now);
  }

  lemma GrantKeepsInv(s: MemoryState, runId: Id, runnerId: string, ttlSecs: nat, now: Millis)
    requires Inv(s) && runId in s.runs && s.runs[runId].status.Queued?
    ensures Inv(AfterGrant(s, Grant(s, runId, runnerId, ttlSecs, now)))
  {
    var g := Grant(s, runId, runnerId, ttlSecs, now);
    assert RunOk(s, s.runs[runId]);
    GrantKeepsRuns(s, g, AfterGrant(s, g));
    GrantKeepsAttempts(s, g, AfterGrant(s, g));
    GrantKeepsNumbers(s, g, AfterGrant(s, g));
  }

  /** The records of a grant: the next attempt of a queued run under a fresh open lease. */
  ghost predicate GrantFits(s: MemoryState, g: Leased) {
    && g.attempt.runId in s.runs
    && s.runs[g.attempt.runId].status.Queued?
    && g.run == LeasedRun(s.runs[g.attempt.runId])
    && g.attempt.id == s.ids + 1 && g.lease.id == s.ids + 2
    && g.attempt.number == g.run.attemptCount && g.attempt.status.AttemptRunning? && g.attempt.finishedAt.None?
    && g.attempt.leaseId == Some(g.lease.id) && g.attempt.runnerId == Some(g.lease.runnerId)
    && g.lease.attemptId == g.attempt.id && g.lease.Open()
  }

  lemma GrantKeepsRuns(s: MemoryState, g: Leased, t: MemoryState)
    requires Inv(s) && GrantFits(s, g) && t == AfterGrant(s, g)
    ensures Keyed(t) && RunsOk(t)
  {
    forall r | r in t.runs
      ensures RunOk(t, t.runs[r])
    {
      assert RunOk(s, s.runs[r]);
    }
  }

  lemma GrantKeepsAttempts(s: MemoryState, g: Leased, t: MemoryState)
    requires Inv(s) && GrantFits(s, g) && t == AfterGrant(s, g)
    ensures AttemptsOk(t) && LeasesOk(t)
  {
    forall a | a in t.attempts
      ensures AttemptOk(t, t.attempts[a])
    {
      if a != g.attempt.id { assert AttemptOk(s, s.attempts[a]); }
    }
    forall l | l in t.leases
      ensures LeaseOk(t, t.leases[l])
    {
      if l != g.lease.id { assert LeaseOk(s, s.leases[l]); }
    }
  }

  lemma GrantKeepsNumbers(s: MemoryState, g: Leased, t: MemoryState)
    requires Inv(s) && GrantFits(s, g) && t == AfterGrant(s, g)
    ensures Numbered(t)
  {
    assert forall a :: a in s.attempts ==> AttemptOk(s, s.attempts[a]);
    forall a, b | a in t.attempts && b in t.attempts && SameSlot(t.attempts[a], t.attempts[b])
      ensures a == b
    {
      if a != g.attempt.id && b != g.attempt.id {
        assert SameSlot(s.attempts[a], s.attempts[b]);
      }
    }
    forall r, k: nat | r in t.runs && 1 <= k <= t.runs[r].attemptCount
      ensures HasNumber(t, r, k)
    {
      if r == g.attempt.runId && k == g.attempt.number {
        assert t.attempts[g.attempt.id].number == k;
      } else {
        assert HasNumber(s, r, k);
        var a :| a in s.attempts && s.attempts[a].runId == r && s.attempts[a].number == k;
        assert t.attempts[a] == s.attempts[a];
      }
    }
  }

  lemma LeaseNextKeepsInv(s: MemoryState, runnerId: string, ttlSecs: nat, now: Millis, pick: Pick)
    requires Inv(s)
    requires LeasePickAllowed(s, runnerId, now, pick)
    ensures Inv(LeaseNext(s, runnerId, ttlSecs, now, pick).next)
  {
    RecoverKeepsInv(s, now);
    var t := Recover(s, now);
    if runnerId in t.runners && !RunnerFull(t, runnerId) && pick.PickRun? {
      GrantKeepsInv(t, pick.runId, runnerId, ttlSecs, now);
    }
  }

  /** What a completion that gets past every check leaves behind. */
  lemma FinishKeepsInv(s: MemoryState, p: CompleteParams, now: Millis, run: Run, t: MemoryState)
    requires Inv(s) && Finishes(s, p, now, run, t) && HealthKeyed(t)
    ensures Inv(t)
  {
    hide AckAttempt, AttemptOk, RunOk, Numbered, LeasesOk;
    FinishedKeepsShape(s, p, now, run, t);
    forall r | r in t.runs
      ensures RunOk(t, t.runs[r])
    {
      FinishedRunOk(s, p, now, run, t, r);
    }
    forall a | a in t.attempts
      ensures AttemptOk(t, t.attempts[a])
    {
      FinishedAttemptOk(s, p, now, run, t, a);
    }
    SameShapeKeepsInv(s, t);
  }

  /** The state a completion leaves: the attempt, its lease and its run written. */
  ghost predicate Finishes(s: MemoryState, p: CompleteParams, now: Millis, run: Run, t: MemoryState) {
    && Preflight(s, p, now).None? && p.status.Terminal()
    && s.attempts[p.attemptId].runId in s.runs
    && var before := s.runs[s.attempts[p.attemptId].runId];
       && run == before.(status := run.status, failureClass := run.failureClass, retryAfter := run.retryAfter, waitingFor := run.waitingFor)
       && !run.status.Running?
       && (run.status.Queued? ==> run.attemptCount < run.maxAttempts)
       && t == AckAttempt(s, p, now).(runs := s.runs[before.id := run], health := t.health)
  }

  lemma FinishedKeepsShape(s: MemoryState, p: CompleteParams, now: Millis, run: Run, t: MemoryState)
    requires Inv(s) && Finishes(s, p, now, run, t)
    ensures SameShape(s, t) && t.runners == s.runners
  {}

  lemma FinishedRunOk(s: MemoryState, p: CompleteParams, now: Millis, run: Run, t: MemoryState, r: Id)
    requires Inv(s) && Finishes(s, p, now, run, t) && r in t.runs
    ensures RunOk(t, t.runs[r])
  {
    assert RunOk(s, s.runs[s.attempts[p.attemptId].runId]);
    if r in s.runs { assert RunOk(s, s.runs[r]); }
  }

  lemma FinishedAttemptOk(s: MemoryState, p: CompleteParams, now: Millis, run: Run, t: MemoryState, a: Id)
    requires Inv(s) && Finishes(s, p, now, run, t) && a in t.attempts
    ensures AttemptOk(t, t.attempts[a])
  {
    OwnLease(s, p.attemptId, a);
  }

  /** Two attempts share neither a lease nor, while one of them runs, the latest number. */
  lemma OwnLease(s: MemoryState, a: Id, b: Id)
    requires Inv(s) && a in s.attempts && b in s.attempts
    ensures AttemptOk(s, s.attempts[a]) && AttemptOk(s, s.attempts[b])
    ensures a != b ==> s.attempts[a].leaseId != s.attempts[b].leaseId
    ensures a != b ==> !SameSlot(s.attempts[a], s.attempts[b])
  {}

  /** What a completion writes once its checks pass: the attempt and lease, one run and
      one health record, and the run is left finished or queued for another attempt. */
  lemma CompleteWrites(s: MemoryState, p: CompleteParams, hash: nat, now: Millis)
    requires Inv(s) && p.status.Terminal() && Preflight(s, p, now).None?
    requires CompletedJob(s, p).Some? ==> Parses(CompletedJob(s, p).value.rateLimitSpec)
    ensures AttemptOk(s, s.attempts[p.attemptId]) && CompletedJob(s, p).Some?
    ensures var o, runId := Complete(s, p, hash, now), s.attempts[p.attemptId].runId;
      && o.result.Ok? && runId in o.next.runs
      && o.result.value == (FinishedAttempt(s.attempts[p.attemptId], p, now), o.next.runs[runId])
      && o.next == AckAttempt(s, p, now).(runs := s.runs[runId := o.next.runs[runId]], health := o.next.health)
      && HealthKeyed(o.next)
      && var before, after := s.runs[runId], o.next.runs[runId];
         && after == before.(status := after.status, failureClass := after.failureClass,
                             retryAfter := after.retryAfter, waitingFor := after.waitingFor)
         && !after.status.Running?
         && (after.status.Queued? ==> after.attemptCount < after.maxAttempts)
  {
    assert AttemptOk(s, s.attempts[p.attemptId]);
    assert RunOk(s, s.runs[s.attempts[p.attemptId].runId]);
  }

  /** The job of the run that the completed attempt belongs to. */
  function CompletedJob(s: MemoryState, p: CompleteParams): Option<Job> {
    if p.attemptId in s.attempts then JobOfRun(s, s.attempts[p.attemptId].runId) else None
  }

  predicate Parses(raw: Option<string>) { raw.Some? ==> ParseRateLimitSpec(raw.value).Ok? }

  /** Every stored rate-limit spec parses, which is what the service checks at deploy. */
  ghost predicate SpecsParse(s: MemoryState) { JobsParse(s.jobs) }

  ghost predicate JobsParse(jobs: map<string, Job>) { forall j :: j in jobs ==> Parses(jobs[j].rateLimitSpec) }

  /** A completion keeps the invariant when its status is terminal and its job's
      rate-limit spec parses. */
  lemma CompleteKeepsInv(s: MemoryState, p: CompleteParams, hash: nat, now: Millis)
    requires Inv(s) && p.status.Terminal()
    requires CompletedJob(s, p).Some? ==> Parses(CompletedJob(s, p).value.rateLimitSpec)
    ensures Inv(Complete(s, p, hash, now).next)
  {
    if Preflight(s, p, now).None? {
      CompleteWrites(s, p, hash, now);
      var t := Complete(s, p, hash, now).next;
      FinishKeepsInv(s, p, now, t.runs[s.attempts[p.attemptId].runId], t);
    }
  }

  /** A completion that passes its checks keeps the invariant exactly when its status is
      terminal and its job's rate-limit spec parses: the code writes the attempt and the
      lease before it looks at either. */
  lemma CompleteKeepsInvExactly(s: MemoryState, p: CompleteParams, hash: nat, now: Millis)
    requires Inv(s) && Preflight(s, p, now).None?
    ensures CompletedJob(s, p).Some?
    ensures Inv(Complete(s, p, hash, now).next) <==>
      p.status.Terminal() && Parses(CompletedJob(s, p).value.rateLimitSpec)
  {
    assert AttemptOk(s, s.attempts[p.attemptId]);
    assert RunOk(s, s.runs[s.attempts[p.attemptId].runId]);
    if p.status.Terminal() && Parses(CompletedJob(s, p).value.rateLimitSpec) {
      CompleteKeepsInv(s, p, hash, now);
    } else {
      HalfCompleted(s, p, hash, now);
    }
  }

  lemma HalfCompleted(s: MemoryState, p: CompleteParams, hash: nat, now: Millis)
    requires Inv(s) && Preflight(s, p, now).None? && CompletedJob(s, p).Some?
    requires !p.status.Terminal() || !Parses(CompletedJob(s, p).value.rateLimitSpec)
    ensures !Inv(Complete(s, p, hash, now).next)
  {
    var t := Complete(s, p, hash, now).next;
    assert AttemptOk(s, s.attempts[p.attemptId]);
    assert t.runs == s.runs && t.attempts == AckAttempt(s, p, now).attempts;
    assert !AttemptOk(t, t.attempts[p.attemptId]);
  }

  lemma CancelKeepsInv(s: MemoryState, runId: Id, requestedAt: Millis)
    requires Inv(s)
    ensures Inv(Cancel(s, runId, requestedAt).next)
  {
    if runId in s.runs && s.runs[runId].status.Queued? {
      RewriteRunKeepsInv(s, runId, Cancel(s, runId, requestedAt).next.runs[runId]);
    } else if runId in s.runs && s.runs[runId].status.Running? {
      match FindRunning(s, runId, s.ids + 1)
      case None =>
      case Some(a) =>
        MarkCancelKeepsInv(s, runId, a, requestedAt);
    }
  }

  /** A run that has no running attempt may change to any status but Running. */
  lemma RewriteRunKeepsInv(s: MemoryState, runId: Id, run: Run)
    requires Inv(s) && runId in s.runs && SameRun(s.runs[runId], run)
    requires !s.runs[runId].status.Running? && !run.status.Running? && !run.status.Queued?
    ensures Inv(s.(runs := s.runs[runId := run]))
  {
    var t := s.(runs := s.runs[runId := run]);
    forall r | r in t.runs
      ensures RunOk(t, t.runs[r])
    {
      assert RunOk(s, s.runs[r]);
    }
    forall a | a in t.attempts
      ensures AttemptOk(t, t.attempts[a])
    {
      assert AttemptOk(s, s.attempts[a]);
    }
    SameShapeKeepsInv(s, t);
  }

  lemma MarkCancelKeepsInv(s: MemoryState, runId: Id, a0: Id, requestedAt: Millis)
    requires Inv(s) && runId in s.runs && a0 in s.attempts
    ensures Inv(MarkCancel(s, runId, a0, requestedAt))
  {
    hide MarkCancel, AttemptOk, RunOk, Numbered, LeasesOk;
    var t := MarkCancel(s, runId, a0, requestedAt);
    MarkedKeepsShape(s, runId, a0, requestedAt);
    forall r | r in t.runs
      ensures RunOk(t, t.runs[r])
    {
      MarkedRunOk(s, runId, a0, requestedAt, r);
    }
    forall a | a in t.attempts
      ensures AttemptOk(t, t.attempts[a])
    {
      MarkedAttemptOk(s, runId, a0, requestedAt, a);
    }
    SameShapeKeepsInv(s, t);
  }

  lemma MarkedKeepsShape(s: MemoryState, runId: Id, a0: Id, requestedAt: Millis)
    requires Inv(s) && runId in s.runs && a0 in s.attempts
    ensures var t := MarkCancel(s, runId, a0, requestedAt);
      SameShape(s, t) && t.runners == s.runners && t.health == s.health
  {}

  lemma MarkedRunOk(s: MemoryState, runId: Id, a0: Id, requestedAt: Millis, r: Id)
    requires Inv(s) && runId in s.runs && a0 in s.attempts && r in s.runs
    ensures var t := MarkCancel(s, runId, a0, requestedAt); RunOk(t, t.runs[r])
  {
    assert RunOk(s, s.runs[r]);
  }

  lemma MarkedAttemptOk(s: MemoryState, runId: Id, a0: Id, requestedAt: Millis, a: Id)
    requires Inv(s) && runId in s.runs && a0 in s.attempts && a in s.attempts
    ensures var t := MarkCancel(s, runId, a0, requestedAt); AttemptOk(t, t.attempts[a])
  {
    assert AttemptOk(s, s.attempts[a0]);
    assert AttemptOk(s, s.attempts[a]);
  }
}
