/**
 Which runs a lease call hands out, said over the fields of the records and over counted
 sets of attempts: a run that starts has nothing against it, and a call that hands out
 nothing finds something against every queued run.
 */
module Eligibility {
  import opened Domain
  import opened RateLimit
  import opened Loads
  import opened Transitions
  import opened Invariant
  import opened Steps
  import opened Traces
  import opened HealthHistory

  // ----- What is in use -----

  /** The runner's running attempts. */
  function BusySlots(s: MemoryState, w: string): set<Id> {
    set a | a in s.attempts && s.attempts[a].status.AttemptRunning? && s.attempts[a].runnerId == Some(w)
  }

  /** The job that a running attempt on the runner works for. */
  function WorkOn(s: MemoryState, w: string, a: Id): Option<Job> {
    if a in BusySlots(s, w) && s.attempts[a].runId in s.runs && s.runs[s.attempts[a].runId].jobId in s.jobs
    then Some(s.jobs[s.runs[s.attempts[a].runId].jobId]) else None
  }

  /** A job without a size of its own takes one core and 512 MB. */
  function CoresFor(job: Option<Job>): nat {
    match job
    case None => 0
    case Some(j) => if j.cpuCores.Some? then j.cpuCores.value else 1
  }

  function MegabytesFor(job: Option<Job>): nat {
    match job
    case None => 0
    case Some(j) => if j.memoryMb.Some? then j.memoryMb.value else 512
  }

  /** The cores of the runner that are taken, each as the n-th one of an attempt. */
  function CoresTaken(s: MemoryState, w: string): set<(Id, nat)> {
    set a, n: nat | a in s.attempts && n < CoresFor(WorkOn(s, w, a)) :: (a, n)
  }

  function MegabytesTaken(s: MemoryState, w: string): set<(Id, nat)> {
    set a, n: nat | a in s.attempts && n < MegabytesFor(WorkOn(s, w, a)) :: (a, n)
  }

  /** The running attempts of the job. */
  function ActiveAttempts(s: MemoryState, j: string): set<Id> {
    set a | a in s.attempts && s.attempts[a].status.AttemptRunning?
            && s.attempts[a].runId in s.runs && s.runs[s.attempts[a].runId].jobId == j
  }

  /** The other job draws on the same quota: it is the same one, or it names the same pool
      in the same project. */
  predicate SharesQuota(job: Job, spec: RateLimitSpec, other: Job) {
    match spec.pool
    case None => other.id == job.id
    case Some(pool) =>
      && other.projectId == job.projectId
      && other.rateLimitSpec.Some? && ParseRateLimitSpec(other.rateLimitSpec.value).Ok?
      && ParseRateLimitSpec(other.rateLimitSpec.value).value.pool == Some(pool)
  }

  /** The attempts that were started on the quota since `from`, whatever became of them. */
  function StartsOnQuota(s: MemoryState, job: Job, spec: RateLimitSpec, from: Millis): set<Id> {
    set a | a in s.attempts && s.attempts[a].startedAt >= from
            && s.attempts[a].runId in s.runs && s.runs[s.attempts[a].runId].jobId in s.jobs
            && SharesQuota(job, spec, s.jobs[s.runs[s.attempts[a].runId].jobId])
  }

  // ----- The loads count these -----

  function Under(counted: set<Id>, n: nat): set<Id> { set a | a in counted && a < n }

  lemma {:induction false} CountBelow(s: MemoryState, m: Measure, counted: set<Id>, n: nat)
    requires forall a :: a in counted ==> a in s.attempts && AttemptWeight(s, m, s.attempts[a]) == 1
    requires forall a :: a in s.attempts && a !in counted ==> AttemptWeight(s, m, s.attempts[a]) == 0
    ensures |Under(counted, n)| == LoadBelow(s, m, n)
  {
    hide AttemptWeight, Under;
    UnderSplits(counted, n);
    if n > 0 {
      CountBelow(s, m, counted, n - 1);
    }
  }

  lemma UnderSplits(counted: set<Id>, n: nat)
    ensures n == 0 ==> |Under(counted, n)| == 0
    ensures n > 0 ==> |Under(counted, n)| == |Under(counted, n - 1)| + if n - 1 in counted then 1 else 0
  {
    if n > 0 {
      assert Under(counted, n) == Under(counted, n - 1) + if n - 1 in counted then {n - 1} else {};
    }
  }

  lemma CountIsLoad(s: MemoryState, m: Measure, counted: set<Id>)
    requires AttemptIdsKnown(s)
    requires forall a :: a in counted ==> a in s.attempts && AttemptWeight(s, m, s.attempts[a]) == 1
    requires forall a :: a in s.attempts && a !in counted ==> AttemptWeight(s, m, s.attempts[a]) == 0
    ensures |counted| == Load(s, m)
  {
    hide AttemptWeight;
    CountBelow(s, m, counted, s.ids + 1);
    assert Under(counted, s.ids + 1) == counted;
  }

  function Pairs(a: Id, w: nat): (pairs: set<(Id, nat)>)
    ensures |pairs| == w
    ensures forall u :: u in pairs <==> u.0 == a && u.1 < w
  {
    if w == 0 then {} else Pairs(a, w - 1) + {(a, w - 1)}
  }

  function UnitsUnder(units: set<(Id, nat)>, n: nat): set<(Id, nat)> { set u | u in units && u.0 < n }

  lemma {:induction false} UnitsBelow(s: MemoryState, m: Measure, units: set<(Id, nat)>, n: nat)
    requires forall a, k: nat :: (a, k) in units <==> a in s.attempts && k < AttemptWeight(s, m, s.attempts[a])
    ensures |UnitsUnder(units, n)| == LoadBelow(s, m, n)
  {
    hide AttemptWeight, UnitsUnder;
    if n > 0 {
      UnitsBelow(s, m, units, n - 1);
      UnitsSplit(units, n - 1, Weight(s, m, n - 1));
    } else {
      NoUnits(units);
    }
  }

  lemma NoUnits(units: set<(Id, nat)>)
    ensures UnitsUnder(units, 0) == {}
  {}

  lemma UnitsSplit(units: set<(Id, nat)>, a: Id, w: nat)
    requires forall k: nat :: (a, k) in units <==> k < w
    ensures |UnitsUnder(units, a + 1)| == |UnitsUnder(units, a)| + w
  {
    forall u: (Id, nat)
      ensures u in UnitsUnder(units, a + 1) <==> u in UnitsUnder(units, a) || u in Pairs(a, w)
    {
      assert u == (u.0, u.1);
    }
    assert UnitsUnder(units, a + 1) == UnitsUnder(units, a) + Pairs(a, w);
  }

  lemma UnitsAreLoad(s: MemoryState, m: Measure, units: set<(Id, nat)>)
    requires AttemptIdsKnown(s)
    requires forall a, k: nat :: (a, k) in units <==> a in s.attempts && k < AttemptWeight(s, m, s.attempts[a])
    ensures |units| == Load(s, m)
  {
    hide AttemptWeight;
    UnitsBelow(s, m, units, s.ids + 1);
    forall u | u in units
      ensures u.0 < s.ids + 1
    {
      assert (u.0, u.1) in units;
    }
    assert UnitsUnder(units, s.ids + 1) == units;
  }

  /** The sums of the lease call are the sizes of these sets. */
  lemma LoadsCountWhatIsInUse(s: MemoryState, w: string, j: string)
    requires AttemptIdsKnown(s)
    ensures Load(s, RunnerSlots(w)) == |BusySlots(s, w)|
    ensures Load(s, RunnerCpu(w)) == |CoresTaken(s, w)|
    ensures Load(s, RunnerMemory(w)) == |MegabytesTaken(s, w)|
    ensures Load(s, JobRunning(j)) == |ActiveAttempts(s, j)|
  {
    hide Load;
    CountIsLoad(s, RunnerSlots(w), BusySlots(s, w));
    CountIsLoad(s, JobRunning(j), ActiveAttempts(s, j));
    UnitsAreLoad(s, RunnerCpu(w), CoresTaken(s, w));
    UnitsAreLoad(s, RunnerMemory(w), MegabytesTaken(s, w));
  }

  lemma StartsAreLoad(s: MemoryState, job: Job, spec: RateLimitSpec, from: Millis)
    requires AttemptIdsKnown(s)
    ensures Load(s, StartsSince(ScopeOf(job, spec), from)) == |StartsOnQuota(s, job, spec, from)|
  {
    hide Load, ParseRateLimitSpec;
    CountIsLoad(s, StartsSince(ScopeOf(job, spec), from), StartsOnQuota(s, job, spec, from));
  }

  // ----- What can stand against a run -----

  /** `required` does not fit beside what is taken; a size at the 32-bit maximum stands for
      no bound. */
  predicate NoRoom(taken: nat, required: nat, size: nat) { taken + required > size && size < U32_MAX }

  predicate QuotaSpent(s: MemoryState, job: Job, now: Millis) {
    && job.rateLimitSpec.Some?
    && var spec := ParseRateLimitSpec(job.rateLimitSpec.value);
       spec.Ok? && |StartsOnQuota(s, job, spec.value, now - spec.value.windowMs)| >= spec.value.limit
  }

  predicate JobInTheWay(s: MemoryState, job: Job, runner: Runner, now: Millis) {
    || !job.enabled
    || (job.id in s.health && s.health[job.id].holdUntil.Some? && s.health[job.id].holdUntil.value > now)
    || (job.computeClass.Some? && job.computeClass != Some(runner.computeClass))
    || NoRoom(|CoresTaken(s, runner.id)|, CoresFor(Some(job)), runner.cpuCores)
    || NoRoom(|MegabytesTaken(s, runner.id)|, MegabytesFor(Some(job)), runner.memoryMb)
    || (job.concurrencyLimit.Some? && |ActiveAttempts(s, job.id)| >= job.concurrencyLimit.value)
    || QuotaSpent(s, job, now)
  }

  /** Something stands against starting the queued run on the runner now. */
  predicate Obstacle(s: MemoryState, run: Run, runner: Runner, now: Millis) {
    || (run.retryAfter.Some? && run.retryAfter.value > now)
    || run.jobId !in s.jobs
    || JobInTheWay(s, s.jobs[run.jobId], runner, now)
  }

  /** The scan passes over a queued run if and only if something stands against it, and
      takes it for leasable if and only if nothing does. */
  lemma ScanJudgesByObstacles(s: MemoryState, run: Run, runner: Runner, now: Millis)
    requires Keyed(s) && SpecsParse(s) && run.status.Queued?
    ensures Judge(s, run, runner, now).Skipped? <==> Obstacle(s, run, runner, now)
    ensures Judge(s, run, runner, now).Leasable? <==> !Obstacle(s, run, runner, now)
  {
    hide Load, BusySlots, CoresTaken, MegabytesTaken, ActiveAttempts, StartsOnQuota, ParseRateLimitSpec;
    if run.jobId in s.jobs {
      var job := s.jobs[run.jobId];
      LoadsCountWhatIsInUse(s, runner.id, job.id);
      assert Parses(job.rateLimitSpec);
      if job.rateLimitSpec.Some? {
        var spec := ParseRateLimitSpec(job.rateLimitSpec.value).value;
        StartsAreLoad(s, job, spec, now - spec.windowMs);
      }
    }
  }

  // ----- What a lease call answers -----

  /** The new records of a lease: the next attempt of the run, running on the runner since
      now, under an open lease of the asked length; and the run, Running and with its
      reasons to wait cleared. */
  predicate HandedOut(s: MemoryState, t: MemoryState, w: string, ttlSecs: nat, now: Millis, g: Leased) {
    && g.attempt.runId in s.runs && s.runs[g.attempt.runId].status.Queued?
    && var run := s.runs[g.attempt.runId];
       && g.run == run.(status := Running, attemptCount := run.attemptCount + 1, failureClass := None,
                        retryAfter := None, waitingFor := None)
       && g.attempt == Attempt(g.attempt.id, run.id, run.attemptCount + 1, AttemptRunning, Some(g.lease.id), Some(w), now,
                               None, None, None)
       && g.lease == Lease(g.lease.id, g.attempt.id, w, now + ttlSecs * 1_000, None, None, None)
       && g.attempt.id !in s.attempts && g.lease.id !in s.leases
       && t.runs == s.runs[run.id := g.run]
       && t.attempts == s.attempts[g.attempt.id := g.attempt]
       && t.leases == s.leases[g.lease.id := g.lease]
  }

  /** After recovery a lease call answers an error only to an unknown runner; it answers
      nothing only when the runner's slots are taken or something stands against every
      queued run; and it hands out a run only when a slot is free and nothing stands
      against that run. */
  lemma LeaseAnswersExactly(s: MemoryState, w: string, ttlSecs: nat, now: Millis, pick: Pick)
    requires Inv(s) && SpecsParse(s) && LeasePickAllowed(s, w, now, pick)
    ensures var o, t := LeaseNext(s, w, ttlSecs, now, pick), Recover(s, now);
      && (o.result.Err? <==> w !in s.runners) && (o.result.Err? ==> o.result.error.RunnerNotRegistered?)
      && (o.result.Ok? ==>
            var runner := s.runners[w];
            match o.result.value
            case None =>
              && o.next == t
              && (|BusySlots(t, w)| >= runner.maxConcurrentLeases
                  || forall r :: r in t.runs && t.runs[r].status.Queued? ==> Obstacle(t, t.runs[r], runner, now))
            case Some(g) =>
              && |BusySlots(t, w)| < runner.maxConcurrentLeases
              && HandedOut(t, o.next, w, ttlSecs, now, g)
              && !Obstacle(t, t.runs[g.attempt.runId], runner, now))
  {
    hide Inv, Recover, Obstacle, Judge, SpecsParse, BusySlots;
    var t := Recover(s, now);
    RecoverKeepsInv(s, now);
    RecoverKeepsJobs(s, now);
    InvKnowsIds(t);
    LoadsCountWhatIsInUse(t, w, "");
    if w in t.runners && !RunnerFull(t, w) {
      forall r | r in t.runs && t.runs[r].status.Queued?
        ensures Judge(t, t.runs[r], t.runners[w], now).Skipped? <==> Obstacle(t, t.runs[r], t.runners[w], now)
        ensures Judge(t, t.runs[r], t.runners[w], now).Leasable? <==> !Obstacle(t, t.runs[r], t.runners[w], now)
      {
        ScanJudgesByObstacles(t, t.runs[r], t.runners[w], now);
      }
      OnlyQueuedRunsCount(t, t.runners[w], now);
    }
  }

  lemma RecoverKeepsJobs(s: MemoryState, now: Millis)
    ensures Recover(s, now).jobs == s.jobs && Recover(s, now).runners == s.runners && Recover(s, now).health == s.health
    ensures SpecsParse(s) ==> SpecsParse(Recover(s, now))
  {
    hide Lost;
  }

  lemma InvKnowsIds(s: MemoryState)
    requires Inv(s)
    ensures AttemptIdsKnown(s) && Keyed(s) && s.ids + 1 !in s.attempts && s.ids + 2 !in s.leases
  {}

  lemma OnlyQueuedRunsCount(s: MemoryState, runner: Runner, now: Millis)
    requires SpecsParse(s)
    ensures forall r :: r in s.runs && !s.runs[r].status.Queued? ==> Judge(s, s.runs[r], runner, now).Skipped?
    ensures forall r :: r in s.runs ==> !Judge(s, s.runs[r], runner, now).Broken?
  {
    hide Load, ParseRateLimitSpec, ScopeOf;
    forall r | r in s.runs && s.runs[r].jobId in s.jobs
      ensures Parses(s.jobs[s.runs[r].jobId].rateLimitSpec)
    {}
  }

  /** Over any run of the store, a run is only started by a lease call of a registered
      runner, when its job is enabled, asks for no other class than the runner's, and
      nothing else stands against it either. */
  lemma StartedRunsHadNoObstacle(tr: Trace, i: nat, r: Id)
    requires IsTrace(tr) && i < |tr.events| && StartsRunAt(tr, i, r)
    ensures tr.events[i].step.LeaseStep? && tr.events[i].step.runnerId in tr.states[i].runners
    ensures var e := tr.events[i];
      var s, runner := Recover(tr.states[i], e.now), tr.states[i].runners[e.step.runnerId];
      && r in s.runs && s.runs[r].status.Queued? && !Obstacle(s, s.runs[r], runner, e.now)
      && s.runs[r].jobId in tr.states[i].jobs
      && var job := tr.states[i].jobs[s.runs[r].jobId];
         job.enabled && (job.computeClass.Some? ==> job.computeClass.value == runner.computeClass)
  {
    hide Inv, SpecsParse, Judge, Recover, Apply, Enabled;
    StartedRunWasLeasable(tr, i, r);
    ReachableStatesAreLinked(tr, i);
    var e := tr.events[i];
    var s := Recover(tr.states[i], e.now);
    RecoverKeepsInv(tr.states[i], e.now);
    RecoverKeepsJobs(tr.states[i], e.now);
    InvKnowsIds(s);
    LeasableIsQueued(s, r, s.runners[e.step.runnerId], e.now);
    ScanJudgesByObstacles(s, s.runs[r], s.runners[e.step.runnerId], e.now);
  }

  lemma LeasableIsQueued(s: MemoryState, r: Id, runner: Runner, now: Millis)
    requires r in s.runs && Judge(s, s.runs[r], runner, now).Leasable?
    ensures s.runs[r].status.Queued?
  {
    hide Load, ParseRateLimitSpec, ScopeOf;
  }
}
