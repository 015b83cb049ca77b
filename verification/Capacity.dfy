/**
 Capacity: no runner is ever given more work than its slots, cpu and memory, and no job
 runs more attempts than its concurrency limit, as long as nobody tightens the sizes of
 work that is already placed.
 */
module Capacity {
  import opened Domain
  import opened Loads
  import opened Schedule
  import opened Transitions
  import opened Invariant
  import opened Steps
  import opened Traces

  /** The size checks add in 32 bits and saturate. They refuse exactly what does not fit,
      except that a size at the very top of the range refuses nothing. */
  lemma SizeCheckExactly(active: nat, required: nat, size: nat)
    ensures SatAdd32(active, required) > size <==> active + required > size && size < U32_MAX
  {}

  predicate Fits(load: nat, size: nat) { size < U32_MAX ==> load <= size }

  predicate RunnerWithin(s: MemoryState, runner: Runner) {
    && Load(s, RunnerSlots(runner.id)) <= runner.maxConcurrentLeases
    && Fits(Load(s, RunnerCpu(runner.id)), runner.cpuCores)
    && Fits(Load(s, RunnerMemory(runner.id)), runner.memoryMb)
  }

  predicate JobWithin(s: MemoryState, job: Job) {
    job.concurrencyLimit.Some? ==> Load(s, JobRunning(job.id)) <= job.concurrencyLimit.value
  }

  ghost predicate WithinCapacity(s: MemoryState) {
    && (forall w {:trigger RunnerWithin(s, s.runners[w])} :: w in s.runners ==> RunnerWithin(s, s.runners[w]))
    && (forall j {:trigger JobWithin(s, s.jobs[j])} :: j in s.jobs ==> JobWithin(s, s.jobs[j]))
    && RunnersKnown(s)
  }

  predicate RunnersKnown(s: MemoryState) {
    forall a :: a in s.attempts ==> s.attempts[a].runnerId.Some? && s.attempts[a].runnerId.value in s.runners
  }

  predicate RunnerNotTightened(x: Runner, y: Runner) {
    x.id == y.id && x.maxConcurrentLeases <= y.maxConcurrentLeases && x.cpuCores <= y.cpuCores && x.memoryMb <= y.memoryMb
  }

  predicate JobNotGrown(x: Job, y: Job) { y.Cpu() <= x.Cpu() && y.Memory() <= x.Memory() }

  predicate LimitNotDropped(x: Job, y: Job) {
    y.concurrencyLimit.Some? ==> x.concurrencyLimit.Some? && x.concurrencyLimit.value <= y.concurrencyLimit.value
  }

  ghost predicate RunnersNotShrunk(s: MemoryState, t: MemoryState) {
    && s.runners.Keys <= t.runners.Keys
    && forall w {:trigger RunnerNotTightened(s.runners[w], t.runners[w])} ::
         w in s.runners ==> RunnerNotTightened(s.runners[w], t.runners[w])
  }

  ghost predicate JobsNotGrown(s: MemoryState, t: MemoryState) {
    && s.jobs.Keys <= t.jobs.Keys
    && forall j {:trigger JobNotGrown(s.jobs[j], t.jobs[j])} :: j in s.jobs ==> JobNotGrown(s.jobs[j], t.jobs[j])
  }

  ghost predicate LimitsNotDropped(s: MemoryState, t: MemoryState) {
    && s.jobs.Keys <= t.jobs.Keys
    && forall j {:trigger LimitNotDropped(s.jobs[j], t.jobs[j])} :: j in s.jobs ==> LimitNotDropped(s.jobs[j], t.jobs[j])
  }

  /** No runner shrinks, no job grows, and no concurrency limit drops. */
  ghost predicate NotTightened(s: MemoryState, t: MemoryState) {
    RunnersNotShrunk(s, t) && JobsNotGrown(s, t) && LimitsNotDropped(s, t)
  }

  /** A lease step is a recovery, and then perhaps one grant to a run judged leasable. */
  lemma LeaseIsRecoverThenGrant(s: MemoryState, runnerId: string, ttlSecs: nat, now: Millis, pick: Pick)
    requires LeasePickAllowed(s, runnerId, now, pick)
    ensures var r, t := Recover(s, now), LeaseNext(s, runnerId, ttlSecs, now, pick).next;
      || t == r
      || (&& pick.PickRun? && runnerId in r.runners && pick.runId in r.runs
          && !RunnerFull(r, runnerId)
          && Judge(r, r.runs[pick.runId], r.runners[runnerId], now).Leasable?
          && t == AfterGrant(r, Grant(r, pick.runId, runnerId, ttlSecs, now)))
  {
    hide Judge, RunnerFull, Lost, TakeAttempts, LostAttempts;
  }

  // ----- Loads over a step -----

  predicate IsOccupancy(m: Measure) { m.RunnerSlots? || m.RunnerCpu? || m.RunnerMemory? || m.JobRunning? }

  /** An attempt of `s` weighs no more later on. */
  lemma OccupancyOfOne(s: MemoryState, t: MemoryState, m: Measure, a: Id)
    requires Inv(s) && Inv(t) && Evolves(s, t) && JobsNotGrown(s, t)
    requires IsOccupancy(m) && a in s.attempts
    ensures AttemptWeight(t, m, t.attempts[a]) <= AttemptWeight(s, m, s.attempts[a])
  {
    assert AttemptOk(s, s.attempts[a]) && AttemptOk(t, t.attempts[a]);
    assert AttemptEvolves(s.attempts[a], t.attempts[a]);
    var runId := s.attempts[a].runId;
    assert RunEvolves(s.runs[runId], t.runs[runId]);
    assert RunOk(s, s.runs[runId]);
    var jobId := s.runs[runId].jobId;
    assert JobNotGrown(s.jobs[jobId], t.jobs[jobId]);
  }

  lemma OccupancyFalls(s: MemoryState, t: MemoryState, m: Measure)
    requires Inv(s) && Inv(t) && Evolves(s, t) && JobsNotGrown(s, t)
    requires IsOccupancy(m) && t.attempts.Keys == s.attempts.Keys
    ensures Load(t, m) <= Load(s, m)
  {
    forall a | a in t.attempts
      ensures AttemptWeight(t, m, t.attempts[a]) <= AttemptWeight(s, m, s.attempts[a])
    {
      OccupancyOfOne(s, t, m, a);
    }
    LoadMonotone(s, m, t, m);
  }

  lemma OccupancyAfterGrant(s: MemoryState, g: Leased, t: MemoryState, m: Measure)
    requires Inv(s) && Inv(t) && GrantFits(s, g) && t == AfterGrant(s, g) && IsOccupancy(m)
    ensures Load(t, m) <= Load(s, m) + AttemptWeight(t, m, g.attempt)
  {
    GrantEvolves(s, g, t);
    forall b | b in t.attempts && b != g.attempt.id
      ensures b in s.attempts && AttemptWeight(t, m, t.attempts[b]) <= AttemptWeight(s, m, s.attempts[b])
    {
      OccupancyOfOne(s, t, m, b);
    }
    LoadPlusOne(s, m, t, m, g.attempt.id);
  }

  // ----- Capacity over a step -----

  /** With the attempts the same, capacity can only free up. */
  lemma CapacityWithoutNewAttempts(s: MemoryState, t: MemoryState)
    requires Inv(s) && Inv(t) && Evolves(s, t) && NotTightened(s, t)
    requires WithinCapacity(s) && t.attempts.Keys == s.attempts.Keys
    ensures WithinCapacity(t)
  {
    forall w | w in t.runners
      ensures RunnerWithin(t, t.runners[w])
    {
      OccupancyFalls(s, t, RunnerSlots(w));
      OccupancyFalls(s, t, RunnerCpu(w));
      OccupancyFalls(s, t, RunnerMemory(w));
      if w in s.runners {
        assert RunnerWithin(s, s.runners[w]) && RunnerNotTightened(s.runners[w], t.runners[w]);
      } else {
        UnknownRunnerIsIdle(s, w);
      }
    }
    forall j | j in t.jobs
      ensures JobWithin(t, t.jobs[j])
    {
      OccupancyFalls(s, t, JobRunning(j));
      if j in s.jobs {
        assert JobWithin(s, s.jobs[j]) && LimitNotDropped(s.jobs[j], t.jobs[j]);
      } else {
        UnknownJobIsIdle(s, j);
      }
    }
    forall a | a in t.attempts
      ensures t.attempts[a].runnerId.Some? && t.attempts[a].runnerId.value in t.runners
    {
      assert AttemptEvolves(s.attempts[a], t.attempts[a]);
    }
  }

  lemma {:induction false} LoadBelowZero(s: MemoryState, m: Measure, n: nat)
    requires forall a :: a in s.attempts ==> AttemptWeight(s, m, s.attempts[a]) == 0
    ensures LoadBelow(s, m, n) == 0
  {
    if n > 0 { LoadBelowZero(s, m, n - 1); }
  }

  lemma UnknownRunnerIsIdle(s: MemoryState, w: string)
    requires RunnersKnown(s) && w !in s.runners
    ensures Load(s, RunnerSlots(w)) == 0 && Load(s, RunnerCpu(w)) == 0 && Load(s, RunnerMemory(w)) == 0
  {
    LoadBelowZero(s, RunnerSlots(w), s.ids + 1);
    LoadBelowZero(s, RunnerCpu(w), s.ids + 1);
    LoadBelowZero(s, RunnerMemory(w), s.ids + 1);
  }

  lemma UnknownJobIsIdle(s: MemoryState, j: string)
    requires Inv(s) && j !in s.jobs
    ensures Load(s, JobRunning(j)) == 0
  {
    forall a | a in s.attempts
      ensures AttemptWeight(s, JobRunning(j), s.attempts[a]) == 0
    {
      assert AttemptOk(s, s.attempts[a]);
      assert RunOk(s, s.runs[s.attempts[a].runId]);
    }
    LoadBelowZero(s, JobRunning(j), s.ids + 1);
  }

  /** A grant to a run that the scan judged leasable stays within capacity. */
  lemma CapacityAfterGrant(s: MemoryState, runId: Id, runnerId: string, ttlSecs: nat, now: Millis)
    requires Inv(s) && WithinCapacity(s)
    requires runId in s.runs && runnerId in s.runners && !RunnerFull(s, runnerId)
    requires Judge(s, s.runs[runId], s.runners[runnerId], now).Leasable?
    ensures WithinCapacity(AfterGrant(s, Grant(s, runId, runnerId, ttlSecs, now)))
  {
    var g := Grant(s, runId, runnerId, ttlSecs, now);
    var t := AfterGrant(s, g);
    GrantKeepsInv(s, runId, runnerId, ttlSecs, now);
    forall w | w in t.runners
      ensures RunnerWithin(t, t.runners[w])
    {
      assert RunnerWithin(s, s.runners[w]);
      OccupancyAfterGrant(s, g, t, RunnerSlots(w));
      OccupancyAfterGrant(s, g, t, RunnerCpu(w));
      OccupancyAfterGrant(s, g, t, RunnerMemory(w));
    }
    forall j | j in t.jobs
      ensures JobWithin(t, t.jobs[j])
    {
      assert JobWithin(s, s.jobs[j]);
      OccupancyAfterGrant(s, g, t, JobRunning(j));
    }
  }

  lemma LeaseKeepsCapacity(s: MemoryState, runnerId: string, ttlSecs: nat, now: Millis, pick: Pick)
    requires Inv(s) && WithinCapacity(s) && LeasePickAllowed(s, runnerId, now, pick)
    ensures WithinCapacity(LeaseNext(s, runnerId, ttlSecs, now, pick).next)
  {
    var r := Recover(s, now);
    RecoverKeepsInv(s, now);
    RecoverEvolves(s, now);
    CapacityWithoutNewAttempts(s, r);
    LeaseIsRecoverThenGrant(s, runnerId, ttlSecs, now, pick);
    if LeaseNext(s, runnerId, ttlSecs, now, pick).next != r {
      CapacityAfterGrant(r, pick.runId, runnerId, ttlSecs, now);
    }
  }

  lemma StepKeepsCapacity(zones: ZoneDb, s: MemoryState, e: Event)
    requires Inv(s) && SpecsParse(s) && Enabled(s, e) && WithinCapacity(s)
    requires NotTightened(s, Apply(zones, s, e))
    ensures WithinCapacity(Apply(zones, s, e))
  {
    hide Inv, WithinCapacity, NotTightened, Evolves, LeasePickAllowed, LeaseNext;
    var t := Apply(zones, s, e);
    if e.step.LeaseStep? {
      LeaseKeepsCapacity(s, e.step.runnerId, e.step.leaseTtlSecs, e.now, e.step.pick);
    } else {
      StepKeepsInv(zones, s, e);
      StepEvolves(zones, s, e);
      OnlyLeasingAddsAttempts(zones, s, e);
      CapacityWithoutNewAttempts(s, t);
    }
  }

  /** Over every run of the store in which no step tightens a size, every reachable state
      keeps each runner within its slots, cpu and memory and each job within its
      concurrency limit. */
  lemma {:induction false} CapacityIsKept(tr: Trace, i: nat)
    requires IsTrace(tr) && i < |tr.states|
    requires forall k :: 0 <= k < i ==> NotTightened(tr.states[k], tr.states[k + 1])
    ensures WithinCapacity(tr.states[i])
  {
    hide Inv, NotTightened, Apply, Enabled;
    if i > 0 {
      CapacityIsKept(tr, i - 1);
      ReachableStatesAreLinked(tr, i - 1);
      assert StepAt(tr, i - 1);
      assert NotTightened(tr.states[i - 1], tr.states[i - 1 + 1]);
      StepKeepsCapacity(tr.zones, tr.states[i - 1], tr.events[i - 1]);
    }
  }
}
