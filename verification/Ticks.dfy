/**
 Schedule ticks: how many runs they create, that none is created twice, and that ticking
 often creates what ticking once does.
 */
module Ticks {
  import opened Domain
  import opened Cron
  import opened Schedule
  import opened Transitions
  import opened Invariant
  import opened Steps
  import opened Traces

  /** The job has a scheduled run for this fire time. */
  predicate Fired(s: MemoryState, jobId: string, at: Millis) { AlreadyScheduled(s, jobId, at) }

  predicate SameFire(x: Run, y: Run) {
    x.trigger.Scheduled? && y.trigger.Scheduled? && x.jobId == y.jobId && x.scheduledAt == y.scheduledAt
  }

  /** No job has two scheduled runs for one fire time. */
  ghost predicate FiresOnce(s: MemoryState) {
    forall q, r {:trigger SameFire(s.runs[q], s.runs[r])} ::
      q in s.runs && r in s.runs && SameFire(s.runs[q], s.runs[r]) ==> q == r
  }

  // ----- Nothing fires twice -----

  lemma {:induction false} ScheduleRunsFiresOnce(s: MemoryState, job: Job, due: seq<Millis>)
    requires Inv(s) && job.id in s.jobs && FiresOnce(s)
    ensures FiresOnce(ScheduleRuns(s, job, due))
    decreases |due|
  {
    if due != [] {
      var init, at := due[..|due| - 1], due[|due| - 1];
      ScheduleRunsFiresOnce(s, job, init);
      ScheduleRunsKeepsInv(s, job, init);
      var t := ScheduleRuns(s, job, init);
      if !AlreadyScheduled(t, job.id, at) {
        var u := AddScheduledRun(t, job, at);
        forall q, r | q in u.runs && r in u.runs && SameFire(u.runs[q], u.runs[r])
          ensures q == r
        {
          if q in t.runs && r in t.runs { assert SameFire(t.runs[q], t.runs[r]); }
        }
      }
    }
  }

  lemma {:induction false} TickFiresOnce(zones: ZoneDb, s: MemoryState, order: seq<string>, now: Millis)
    requires Inv(s) && now < I64_MAX && FiresOnce(s)
    ensures FiresOnce(Tick(zones, s, order, now).next)
    decreases |order|
  {
    if order != [] {
      var init, jobId := order[..|order| - 1], order[|order| - 1];
      TickFiresOnce(zones, s, init, now);
      TickKeepsInv(zones, s, init, now);
      var before := Tick(zones, s, init, now).next;
      if Tick(zones, s, order, now).next != before {
        ScheduleRunsFiresOnce(before, s.jobs[jobId], JobDue(zones, before, s.jobs[jobId], now).value);
      }
    }
  }

  /** New runs of any other step are not scheduled runs. */
  lemma OtherStepsDoNotSchedule(zones: ZoneDb, s: MemoryState, e: Event, r: Id)
    requires Inv(s) && !e.step.TickStep? && r in Apply(zones, s, e).runs && r !in s.runs
    ensures !Apply(zones, s, e).runs[r].trigger.Scheduled?
  {
    hide Inv, RegisterDeploy, Heartbeat, Enqueue, Replay, LeaseNext, Complete, Cancel, Recover, Tick;
    match e.step
    case Deploy(projectId, params) => DeployKeepsRuns(s, projectId, params, e.now);
    case HeartbeatStep(runner, ttlSecs, active) => HeartbeatKeepsRuns(s, runner, ttlSecs, active, e.now);
    case EnqueueStep(p) => EnqueueAddsUnscheduled(s, p, e.now);
    case ReplayStep(sourceId) => ReplayAddsUnscheduled(s, sourceId, e.now);
    case LeaseStep(runnerId, ttlSecs, pick) => LeaseKeepsRunKeys(s, runnerId, ttlSecs, e.now, pick);
    case RecoverStep => RecoverKeepsRunKeys(s, e.now);
    case CompleteStep(p, hash) => CompleteKeepsRuns(s, p, hash, e.now);
    case CancelStep(runId) => CancelKeepsRuns(s, runId, e.now);
    case _ =>
  }

  ghost predicate NothingScheduled(s: MemoryState, t: MemoryState) {
    forall r :: r in t.runs && r !in s.runs ==> !t.runs[r].trigger.Scheduled?
  }

  lemma DeployKeepsRuns(s: MemoryState, projectId: string, params: seq<JobParams>, now: Millis)
    ensures RegisterDeploy(s, projectId, params, now).next.runs == s.runs
  {}

  lemma HeartbeatKeepsRuns(s: MemoryState, runner: RunnerParams, ttlSecs: nat, active: seq<Id>, now: Millis)
    ensures Heartbeat(s, runner, ttlSecs, active, now).next.runs == s.runs
  {}

  lemma EnqueueAddsUnscheduled(s: MemoryState, p: EnqueueParams, now: Millis)
    ensures NothingScheduled(s, Enqueue(s, p, now).next)
  {
    hide KeyScope;
  }

  lemma ReplayAddsUnscheduled(s: MemoryState, sourceId: Id, now: Millis)
    ensures NothingScheduled(s, Replay(s, sourceId, now).next)
  {}

  lemma RecoverKeepsRunKeys(s: MemoryState, now: Millis)
    ensures Recover(s, now).runs.Keys == s.runs.Keys
  {
    hide Lost;
  }

  lemma LeaseKeepsRunKeys(s: MemoryState, runnerId: string, ttlSecs: nat, now: Millis, pick: Pick)
    ensures LeaseNext(s, runnerId, ttlSecs, now, pick).next.runs.Keys == s.runs.Keys
  {
    hide Recover, RunnerFull;
    RecoverKeepsRunKeys(s, now);
  }

  lemma CompleteKeepsRuns(s: MemoryState, p: CompleteParams, hash: nat, now: Millis)
    ensures Complete(s, p, hash, now).next.runs.Keys == s.runs.Keys
  {}

  lemma CancelKeepsRuns(s: MemoryState, runId: Id, now: Millis)
    ensures Cancel(s, runId, now).next.runs.Keys == s.runs.Keys
  {}

  lemma StepFiresOnce(zones: ZoneDb, s: MemoryState, e: Event)
    requires Inv(s) && SpecsParse(s) && Enabled(s, e) && FiresOnce(s)
    ensures FiresOnce(Apply(zones, s, e))
  {
    hide Inv, Evolves, NewRecords, FiresOnce;
    if e.step.TickStep? {
      TickFiresOnce(zones, s, e.step.order, e.now);
    } else {
      hide Apply, Enabled;
      var t := Apply(zones, s, e);
      StepEvolves(zones, s, e);
      forall r | r in t.runs && r !in s.runs
        ensures !t.runs[r].trigger.Scheduled?
      {
        OtherStepsDoNotSchedule(zones, s, e, r);
      }
      UnscheduledFiresOnce(s, t);
    }
  }

  lemma UnscheduledFiresOnce(s: MemoryState, t: MemoryState)
    requires FiresOnce(s) && Evolves(s, t)
    requires forall r :: r in t.runs && r !in s.runs ==> !t.runs[r].trigger.Scheduled?
    ensures FiresOnce(t)
  {
    forall q, r | q in t.runs && r in t.runs && SameFire(t.runs[q], t.runs[r])
      ensures q == r
    {
      if q in s.runs && r in s.runs {
        assert RunEvolves(s.runs[q], t.runs[q]) && RunEvolves(s.runs[r], t.runs[r]);
        assert SameFire(s.runs[q], s.runs[r]);
      }
    }
  }

  /** In every reachable state no job has two scheduled runs with the same fire time,
      whatever was redeployed in between. */
  lemma {:induction false} ReachableStatesFireOnce(tr: Trace, i: nat)
    requires IsTrace(tr) && i < |tr.states|
    ensures FiresOnce(tr.states[i])
  {
    if i > 0 {
      hide Apply, Enabled, Inv, FiresOnce;
      ReachableStatesFireOnce(tr, i - 1);
      ReachableStatesAreLinked(tr, i - 1);
      assert StepAt(tr, i - 1);
      StepFiresOnce(tr.zones, tr.states[i - 1], tr.events[i - 1]);
    }
  }

  // ----- What a tick creates -----

  predicate AllAfter(due: seq<Millis>, latest: Option<Millis>) {
    latest.Some? ==> forall i :: 0 <= i < |due| ==> latest.value < due[i]
  }

  lemma LatestBounds(s: MemoryState, jobId: string, at: Millis)
    requires Inv(s)
    ensures Fired(s, jobId, at) ==> LatestScheduled(s, jobId).Some? && at <= LatestScheduled(s, jobId).value
    ensures LatestScheduled(s, jobId).Some? ==> Fired(s, jobId, LatestScheduled(s, jobId).value)
  {}

  /** Due times lie after the latest scheduled run, in ascending order; so each gets its
      own new run, the check for an existing one never fires, and the job has then fired
      at exactly the old and the due times. */
  lemma {:induction false} ScheduleRunsCreatesAll(s: MemoryState, job: Job, due: seq<Millis>)
    requires Inv(s) && job.id in s.jobs
    requires StrictlyAscending(due) && AllAfter(due, LatestScheduled(s, job.id))
    ensures var t := ScheduleRuns(s, job, due);
      && t.ids == s.ids + |due|
      && LatestScheduled(t, job.id) == (if due == [] then LatestScheduled(s, job.id) else Some(due[|due| - 1]))
      && (forall at :: Fired(t, job.id, at) <==> Fired(s, job.id, at) || at in due)
    decreases |due|
  {
    hide Numbered, RunsOk, AttemptsOk, LeasesOk, LatestBelow;
    if due != [] {
      var init, at := due[..|due| - 1], due[|due| - 1];
      ScheduleRunsCreatesAll(s, job, init);
      ScheduleRunsKeepsInv(s, job, init);
      var t := ScheduleRuns(s, job, init);
      LatestBounds(t, job.id, at);
      var u := AddScheduledRun(t, job, at);
      AddScheduledRunFires(t, job, at);
      ScheduleRunsKeepsInv(s, job, due);
      LatestIs(u, job.id, at);
    }
  }

  lemma AddScheduledRunFires(s: MemoryState, job: Job, at: Millis)
    requires Inv(s)
    ensures forall j, t :: Fired(AddScheduledRun(s, job, at), j, t) <==> Fired(s, j, t) || (j == job.id && t == at)
  {
    var u := AddScheduledRun(s, job, at);
    forall j, t
      ensures Fired(u, j, t) <==> Fired(s, j, t) || (j == job.id && t == at)
    {
      if Fired(s, j, t) {
        var r :| r in s.runs && ScheduledFor(s.runs[r], j) && s.runs[r].scheduledAt == t;
        assert u.runs[r] == s.runs[r];
      }
      if j == job.id && t == at {
        assert ScheduledFor(u.runs[s.ids + 1], j);
      }
    }
  }

  /** The latest scheduled time is the one fire time that no other exceeds. */
  lemma LatestIs(s: MemoryState, jobId: string, at: Millis)
    requires Inv(s) && Fired(s, jobId, at)
    requires forall t :: Fired(s, jobId, t) ==> t <= at
    ensures LatestScheduled(s, jobId) == Some(at)
  {
    LatestBounds(s, jobId, at);
  }

  /** Scheduling one job leaves the fire times of the others alone. */
  lemma {:induction false} ScheduleRunsKeepsOthers(s: MemoryState, job: Job, due: seq<Millis>, jobId: string)
    requires Inv(s) && job.id in s.jobs && jobId != job.id
    ensures var t := ScheduleRuns(s, job, due);
      && (forall at :: Fired(t, jobId, at) <==> Fired(s, jobId, at))
      && LatestScheduled(t, jobId) == LatestScheduled(s, jobId)
    decreases |due|
  {
    var t := ScheduleRuns(s, job, due);
    if due != [] {
      var init, at := due[..|due| - 1], due[|due| - 1];
      ScheduleRunsKeepsOthers(s, job, init, jobId);
      ScheduleRunsKeepsInv(s, job, init);
      AddScheduledRunFires(ScheduleRuns(s, job, init), job, at);
    }
    ScheduleRunsKeepsInv(s, job, due);
    SameFiresSameLatest(s, t, jobId);
  }

  lemma SameFiresSameLatest(s: MemoryState, t: MemoryState, jobId: string)
    requires Inv(s) && Inv(t)
    requires forall at :: Fired(t, jobId, at) <==> Fired(s, jobId, at)
    ensures LatestScheduled(t, jobId) == LatestScheduled(s, jobId)
  {
    if LatestScheduled(s, jobId).Some? {
      LatestBounds(s, jobId, LatestScheduled(s, jobId).value);
      LatestBounds(t, jobId, LatestScheduled(s, jobId).value);
    }
    if LatestScheduled(t, jobId).Some? {
      LatestBounds(s, jobId, LatestScheduled(t, jobId).value);
      LatestBounds(t, jobId, LatestScheduled(t, jobId).value);
    }
  }

  lemma JobDueIsAscending(zones: ZoneDb, s: MemoryState, job: Job, now: Millis)
    requires Inv(s) && job.scheduleExpr.Some? && now < I64_MAX && JobDue(zones, s, job, now).Ok?
    ensures StrictlyAscending(JobDue(zones, s, job, now).value)
    ensures AllAfter(JobDue(zones, s, job, now).value, LatestScheduled(s, job.id))
  {
    var due := JobDue(zones, s, job, now).value;
    if now >= job.createdAt {
      var cursor := Cursor(job.createdAt, LatestScheduled(s, job.id));
      DueFromExact(ParseSchedule(job.scheduleExpr.value, zones).value, cursor, now);
      assert forall i :: 0 <= i < |due| ==> due[i] in due;
    }
  }

  predicate Distinct(order: seq<string>) { forall i, j :: 0 <= i < j < |order| ==> order[i] != order[j] }

  /** The times a tick finds due for the job. */
  predicate DueAt(zones: ZoneDb, s: MemoryState, jobId: string, now: Millis, at: Millis)
    requires now < I64_MAX
  {
    && jobId in s.jobs && s.jobs[jobId].scheduleExpr.Some?
    && var due := JobDue(zones, s, s.jobs[jobId], now);
       due.Ok? && at in due.value
  }

  /** What a successful tick over `order` leaves a job with. */
  ghost predicate TickedJob(zones: ZoneDb, s: MemoryState, t: MemoryState, visited: bool, jobId: string, now: Millis)
    requires now < I64_MAX
  {
    && (forall at :: Fired(t, jobId, at) <==> Fired(s, jobId, at) || (visited && DueAt(zones, s, jobId, now, at)))
    && (visited && jobId in s.jobs && s.jobs[jobId].scheduleExpr.Some? ==>
          && JobDue(zones, s, s.jobs[jobId], now).Ok?
          && var due := JobDue(zones, s, s.jobs[jobId], now).value;
             LatestScheduled(t, jobId) == if due == [] then LatestScheduled(s, jobId) else Some(due[|due| - 1]))
    && (!visited ==> LatestScheduled(t, jobId) == LatestScheduled(s, jobId))
  }

  /** A successful tick fires every job it visits at exactly the times due for it. */
  lemma {:induction false} TickFiresExactlyTheDue(zones: ZoneDb, s: MemoryState, order: seq<string>, now: Millis, jobId: string)
    requires Inv(s) && now < I64_MAX && Distinct(order)
    requires Tick(zones, s, order, now).result.Ok?
    ensures TickedJob(zones, s, Tick(zones, s, order, now).next, jobId in order, jobId, now)
    decreases |order|
  {
    if order != [] {
      var init, last := order[..|order| - 1], order[|order| - 1];
      assert order == init + [last];
      TickKeepsInv(zones, s, init, now);
      TickFiresExactlyTheDue(zones, s, init, now, jobId);
      var before := Tick(zones, s, init, now).next;
      if last in s.jobs && s.jobs[last].scheduleExpr.Some? {
        TickFiresExactlyTheDue(zones, s, init, now, last);
        VisitFires(zones, s, before, last, now, jobId in init, jobId);
      }
    }
  }

  /** Visiting one more job in a tick. */
  lemma VisitFires(zones: ZoneDb, s: MemoryState, before: MemoryState, last: string, now: Millis, visited: bool, jobId: string)
    requires Inv(s) && Inv(before) && before.jobs == s.jobs && now < I64_MAX
    requires last in s.jobs && s.jobs[last].scheduleExpr.Some?
    requires TickedJob(zones, s, before, visited, jobId, now) && TickedJob(zones, s, before, false, last, now)
    requires visited ==> jobId != last
    requires JobDue(zones, before, s.jobs[last], now).Ok?
    ensures TickedJob(zones, s, ScheduleRuns(before, s.jobs[last], JobDue(zones, before, s.jobs[last], now).value),
                      visited || jobId == last, jobId, now)
  {
    hide DueTimes, ScheduleRuns, LatestScheduled, AlreadyScheduled, Fired, RunsOk, AttemptsOk, LeasesOk, Numbered;
    var job := s.jobs[last];
    assert JobDue(zones, before, job, now) == JobDue(zones, s, job, now);
    var due := JobDue(zones, s, job, now).value;
    JobDueIsAscending(zones, s, job, now);
    if jobId == last {
      ScheduleRunsCreatesAll(before, job, due);
    } else {
      ScheduleRunsKeepsOthers(before, job, due, jobId);
    }
  }

  predicate DueOk(zones: ZoneDb, s: MemoryState, jobId: string, now: Millis)
    requires now < I64_MAX
  {
    jobId in s.jobs && s.jobs[jobId].scheduleExpr.Some? ==> JobDue(zones, s, s.jobs[jobId], now).Ok?
  }

  /** The job's schedule parses, and no long gap follows the time it is looked at from nor
      any fire time up to now. */
  ghost predicate Findable(zones: ZoneDb, s: MemoryState, job: Job, now: Millis)
    requires job.scheduleExpr.Some?
  {
    var parsed := ParseSchedule(job.scheduleExpr.value, zones);
    && parsed.Ok?
    && (job.createdAt <= now ==>
          var cursor := Cursor(job.createdAt, LatestScheduled(s, job.id));
          forall at :: Passes(parsed.value, cursor, now, at) ==> !GapAfter(parsed.value, at))
  }

  lemma DueExactlyIfFindable(zones: ZoneDb, s: MemoryState, job: Job, now: Millis)
    requires job.scheduleExpr.Some? && now < I64_MAX
    ensures JobDue(zones, s, job, now).Ok? <==> Findable(zones, s, job, now)
  {
    hide DueFrom, GapAfter, LatestScheduled;
    var parsed := ParseSchedule(job.scheduleExpr.value, zones);
    if parsed.Ok? && job.createdAt <= now {
      DueFromFailsExactly(parsed.value, Cursor(job.createdAt, LatestScheduled(s, job.id)), now);
    }
  }

  lemma {:induction false} TickFindsDueTimes(zones: ZoneDb, s: MemoryState, order: seq<string>, now: Millis)
    requires Inv(s) && now < I64_MAX && Distinct(order)
    ensures Tick(zones, s, order, now).result.Ok? <==> forall j :: j in order ==> DueOk(zones, s, j, now)
    decreases |order|
  {
    if order != [] {
      var init, last := order[..|order| - 1], order[|order| - 1];
      assert order == init + [last];
      assert forall j :: j in order <==> j in init || j == last;
      TickFindsDueTimes(zones, s, init, now);
      TickKeepsInv(zones, s, init, now);
      var before := Tick(zones, s, init, now);
      if before.result.Ok? {
        TickFiresExactlyTheDue(zones, s, init, now, last);
        if last in s.jobs && s.jobs[last].scheduleExpr.Some? {
          assert JobDue(zones, before.next, s.jobs[last], now) == JobDue(zones, s, s.jobs[last], now);
          assert Tick(zones, s, order, now).result.Ok? <==> DueOk(zones, s, last, now);
        } else {
          assert Tick(zones, s, order, now) == before;
        }
      } else {
        assert Tick(zones, s, order, now) == before;
      }
    }
  }

  /** A tick succeeds exactly when every scheduled job it visits has a schedule that parses
      and meets no long gap. */
  lemma TickSucceedsExactly(zones: ZoneDb, s: MemoryState, order: seq<string>, now: Millis)
    requires Inv(s) && now < I64_MAX && Distinct(order)
    ensures Tick(zones, s, order, now).result.Ok? <==>
      forall j :: j in order && j in s.jobs && s.jobs[j].scheduleExpr.Some? ==> Findable(zones, s, s.jobs[j], now)
  {
    hide Tick, Findable, JobDue;
    TickFindsDueTimes(zones, s, order, now);
    forall j | j in order && j in s.jobs && s.jobs[j].scheduleExpr.Some?
      ensures DueOk(zones, s, j, now) <==> Findable(zones, s, s.jobs[j], now)
    {
      DueExactlyIfFindable(zones, s, s.jobs[j], now);
    }
  }

  /** When ticking at `t2` succeeds, so do ticking at `t1` and then again at `t2`, and the
      two fire every job at exactly the times that the one does, in whatever order the
      ticks visit the jobs. */
  lemma TickingTwiceIsTickingOnce(zones: ZoneDb, s: MemoryState, o: seq<string>, o1: seq<string>, o2: seq<string>,
                                  t1: Millis, t2: Millis, jobId: string, at: Millis)
    requires Inv(s) && t1 <= t2 < I64_MAX
    requires TickOrder(s, o) && TickOrder(s, o1) && TickOrder(s, o2)
    requires Tick(zones, s, o, t2).result.Ok?
    ensures Tick(zones, s, o1, t1).result.Ok?
    ensures Tick(zones, Tick(zones, s, o1, t1).next, o2, t2).result.Ok?
    ensures Fired(Tick(zones, Tick(zones, s, o1, t1).next, o2, t2).next, jobId, at)
            <==> Fired(Tick(zones, s, o, t2).next, jobId, at)
  {
    var first := Tick(zones, s, o1, t1).next;
    TickKeepsInv(zones, s, o1, t1);
    BothTicksSucceed(zones, s, o, o1, o2, t1, t2);
    TickFiresExactlyTheDue(zones, s, o, t2, jobId);
    TickFiresExactlyTheDue(zones, s, o1, t1, jobId);
    TickFiresExactlyTheDue(zones, first, o2, t2, jobId);
    assert jobId in o <==> jobId in o1;
    assert jobId in o <==> jobId in o2;
    if jobId in o {
      DueInTwoTicks(zones, s, first, jobId, t1, t2);
    }
  }

  lemma BothTicksSucceed(zones: ZoneDb, s: MemoryState, o: seq<string>, o1: seq<string>, o2: seq<string>, t1: Millis, t2: Millis)
    requires Inv(s) && t1 <= t2 < I64_MAX
    requires TickOrder(s, o) && TickOrder(s, o1) && TickOrder(s, o2)
    requires Tick(zones, s, o, t2).result.Ok?
    ensures Tick(zones, s, o1, t1).result.Ok?
    ensures Tick(zones, Tick(zones, s, o1, t1).next, o2, t2).result.Ok?
  {
    var first := Tick(zones, s, o1, t1).next;
    TickKeepsInv(zones, s, o1, t1);
    TickFindsDueTimes(zones, s, o, t2);
    TickFindsDueTimes(zones, s, o1, t1);
    forall j | j in o1
      ensures DueOk(zones, s, j, t1)
    {
      assert j in o;
      DueEarlier(zones, s, j, t1, t2);
    }
    TickFindsDueTimes(zones, first, o2, t2);
    forall j | j in o2
      ensures DueOk(zones, first, j, t2)
    {
      assert j in o && j in o1;
      DueEarlier(zones, s, j, t1, t2);
      TickFiresExactlyTheDue(zones, s, o1, t1, j);
      DueInTwoTicks(zones, s, first, j, t1, t2);
    }
  }

  lemma DueEarlier(zones: ZoneDb, s: MemoryState, jobId: string, t1: Millis, t2: Millis)
    requires t1 <= t2 < I64_MAX && DueOk(zones, s, jobId, t2)
    ensures DueOk(zones, s, jobId, t1)
  {
    if jobId in s.jobs && s.jobs[jobId].scheduleExpr.Some? && t1 >= s.jobs[jobId].createdAt {
      var job := s.jobs[jobId];
      DueFromSplits(ParseSchedule(job.scheduleExpr.value, zones).value,
                    Cursor(job.createdAt, LatestScheduled(s, job.id)), t1, t2);
    }
  }

  lemma DueInTwoTicks(zones: ZoneDb, s: MemoryState, first: MemoryState, jobId: string, t1: Millis, t2: Millis)
    requires t1 <= t2 < I64_MAX && jobId in s.jobs && s.jobs[jobId].scheduleExpr.Some? && first.jobs == s.jobs
    requires s.jobs[jobId].id == jobId
    requires JobDue(zones, s, s.jobs[jobId], t2).Ok? && JobDue(zones, s, s.jobs[jobId], t1).Ok?
    requires var due := JobDue(zones, s, s.jobs[jobId], t1).value;
      LatestScheduled(first, jobId) == if due == [] then LatestScheduled(s, jobId) else Some(due[|due| - 1])
    ensures JobDue(zones, first, s.jobs[jobId], t2).Ok?
    ensures JobDue(zones, s, s.jobs[jobId], t2).value
            == JobDue(zones, s, s.jobs[jobId], t1).value + JobDue(zones, first, s.jobs[jobId], t2).value
  {
    var job := s.jobs[jobId];
    if t2 >= job.createdAt {
      var schedule := ParseSchedule(job.scheduleExpr.value, zones).value;
      var cursor := Cursor(job.createdAt, LatestScheduled(s, jobId));
      if t1 >= job.createdAt {
        DueFromSplits(schedule, cursor, t1, t2);
        var due := DueFrom(schedule, cursor, t1).value;
        assert LastOr(cursor, due) == Cursor(job.createdAt, LatestScheduled(first, jobId));
      }
    }
  }

  // ----- A tick by the clock -----

  /** Where the job's schedule is looked at from: its latest fire time, or its creation when
      it has not fired. */
  ghost predicate LooksFrom(s: MemoryState, job: Job, base: Millis) {
    if exists at :: Fired(s, job.id, at) then Fired(s, job.id, base) && forall at :: Fired(s, job.id, at) ==> at <= base
    else base == job.createdAt
  }

  /** A successful tick gives exactly the enabled jobs with a schedule new runs, and of
      each exactly the instants after the one it is looked at from and up to now: every
      so-manieth millisecond from there, or those the cron line fires at. */
  lemma TickFiresByTheClock(zones: ZoneDb, s: MemoryState, order: seq<string>, now: Millis, j: string, base: Millis, at: Millis)
    requires Inv(s) && now < I64_MAX && TickOrder(s, order) && Tick(zones, s, order, now).result.Ok?
    requires j in s.jobs && LooksFrom(s, s.jobs[j], base)
    ensures var job, t := s.jobs[j], Tick(zones, s, order, now).next;
      Fired(t, j, at) <==>
        || Fired(s, j, at)
        || (&& job.enabled && job.scheduleExpr.Some? && job.createdAt <= now && base < at <= now
            && match ParseSchedule(job.scheduleExpr.value, zones)
               case Err(_) => false
               case Ok(Every(interval)) => (at - base) % interval == 0
               case Ok(OnCron(cron)) => Fires(cron, at))
  {
    hide RunsOk, AttemptsOk, LeasesOk, Numbered, HealthKeyed, Tick, LatestScheduled, Fired, DueFrom, ParseSchedule, Fires;
    TickFiresExactlyTheDue(zones, s, order, now, j);
    var job := s.jobs[j];
    if j in order {
      CursorIsBase(s, job, base);
      DueByTheClock(zones, s, job, now, base, at);
    }
  }

  lemma CursorIsBase(s: MemoryState, job: Job, base: Millis)
    requires Inv(s) && LooksFrom(s, job, base)
    ensures Cursor(job.createdAt, LatestScheduled(s, job.id)) == base
  {
    hide RunsOk, AttemptsOk, LeasesOk, Numbered, HealthKeyed, Fired;
    LatestBounds(s, job.id, base);
    if exists at :: Fired(s, job.id, at) {
      LatestIs(s, job.id, base);
    }
  }

  lemma DueByTheClock(zones: ZoneDb, s: MemoryState, job: Job, now: Millis, base: Millis, at: Millis)
    requires job.scheduleExpr.Some? && now < I64_MAX && JobDue(zones, s, job, now).Ok?
    requires Cursor(job.createdAt, LatestScheduled(s, job.id)) == base
    ensures at in JobDue(zones, s, job, now).value <==>
      && job.createdAt <= now && base < at <= now
      && match ParseSchedule(job.scheduleExpr.value, zones)
         case Err(_) => false
         case Ok(Every(interval)) => (at - base) % interval == 0
         case Ok(OnCron(cron)) => Fires(cron, at)
  {
    hide LatestScheduled, DueFrom, ParseSchedule, Fires;
    if job.createdAt <= now {
      DueFromExact(ParseSchedule(job.scheduleExpr.value, zones).value, base, now);
    }
  }
}
