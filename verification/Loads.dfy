/**
 The counts and sums that the lease step takes over all attempts: busy slots, cpu and
 memory of a runner, running attempts of a job, and starts in a rate-limit window.
 Every one of them is the sum of a weight per attempt id.
 */
module Loads {
  import opened Domain
  import opened RateLimit

  datatype Measure =
    | RunnerSlots(runnerId: string)
    | RunnerCpu(runnerId: string)
    | RunnerMemory(runnerId: string)
    | JobRunning(jobId: string)
    | StartsSince(scope: Scope, from: Millis)
    | StartsWithin(scope: Scope, from: Millis, upTo: Millis)

  function JobOfRun(s: MemoryState, runId: Id): Option<Job> {
    if runId in s.runs && s.runs[runId].jobId in s.jobs then Some(s.jobs[s.runs[runId].jobId]) else None
  }

  predicate RunningOn(attempt: Attempt, runnerId: string) {
    attempt.status.AttemptRunning? && attempt.runnerId == Some(runnerId)
  }

  predicate StartOf(s: MemoryState, attempt: Attempt, scope: Scope) {
    var job := JobOfRun(s, attempt.runId);
    job.Some? && InScope(job.value, scope)
  }

  function AttemptWeight(s: MemoryState, m: Measure, attempt: Attempt): nat {
    match m
    case RunnerSlots(runnerId) => if RunningOn(attempt, runnerId) then 1 else 0
    case RunnerCpu(runnerId) =>
      var job := JobOfRun(s, attempt.runId);
      if RunningOn(attempt, runnerId) && job.Some? then job.value.Cpu() else 0
    case RunnerMemory(runnerId) =>
      var job := JobOfRun(s, attempt.runId);
      if RunningOn(attempt, runnerId) && job.Some? then job.value.Memory() else 0
    case JobRunning(jobId) =>
      if attempt.status.AttemptRunning? && attempt.runId in s.runs && s.runs[attempt.runId].jobId == jobId
      then 1 else 0
    case StartsSince(scope, from) =>
      if from <= attempt.startedAt && StartOf(s, attempt, scope) then 1 else 0
    case StartsWithin(scope, from, upTo) =>
      if from <= attempt.startedAt <= upTo && StartOf(s, attempt, scope) then 1 else 0
  }

  function Weight(s: MemoryState, m: Measure, a: Id): nat {
    if a in s.attempts then AttemptWeight(s, m, s.attempts[a]) else 0
  }

  /** The weight of all attempts with an id below `n`. */
  function LoadBelow(s: MemoryState, m: Measure, n: nat): nat {
    if n == 0 then 0 else LoadBelow(s, m, n - 1) + Weight(s, m, n - 1)
  }

  function Load(s: MemoryState, m: Measure): nat { LoadBelow(s, m, s.ids + 1) }

  /** No attempt weighs more in `t` under `k` than in `s` under `m`, `extra` aside. */
  predicate NoHeavier(s: MemoryState, m: Measure, t: MemoryState, k: Measure, n: nat, extra: set<Id>) {
    forall a: Id :: a < n && a !in extra ==> Weight(t, k, a) <= Weight(s, m, a)
  }

  lemma {:induction false} LoadBelowMonotone(s: MemoryState, m: Measure, t: MemoryState, k: Measure, n: nat)
    requires NoHeavier(s, m, t, k, n, {})
    ensures LoadBelow(t, k, n) <= LoadBelow(s, m, n)
  {
    if n > 0 {
      LoadBelowMonotone(s, m, t, k, n - 1);
    }
  }

  /** One new attempt adds at most its own weight. */
  lemma {:induction false} LoadBelowPlusOne(s: MemoryState, m: Measure, t: MemoryState, k: Measure, n: nat, a: Id, w: nat)
    requires NoHeavier(s, m, t, k, n, {a})
    requires Weight(t, k, a) <= Weight(s, m, a) + w
    ensures LoadBelow(t, k, n) <= LoadBelow(s, m, n) + w
  {
    if n > 0 {
      if a == n - 1 {
        LoadBelowMonotone(s, m, t, k, n - 1);
      } else {
        LoadBelowPlusOne(s, m, t, k, n - 1, a, w);
      }
    }
  }

  /** All attempt ids have been handed out already. */
  predicate AttemptIdsKnown(s: MemoryState) {
    forall a :: a in s.attempts ==> a <= s.ids
  }

  lemma {:induction false} LoadBelowSettles(s: MemoryState, m: Measure, n: nat)
    requires AttemptIdsKnown(s) && n > s.ids
    ensures LoadBelow(s, m, n) == Load(s, m)
  {
    if n > s.ids + 1 {
      LoadBelowSettles(s, m, n - 1);
    }
  }

  lemma LoadMonotone(s: MemoryState, m: Measure, t: MemoryState, k: Measure)
    requires AttemptIdsKnown(s) && s.ids <= t.ids
    requires forall a :: a in t.attempts ==> a in s.attempts && AttemptWeight(t, k, t.attempts[a]) <= AttemptWeight(s, m, s.attempts[a])
    ensures Load(t, k) <= Load(s, m)
  {
    LoadBelowSettles(s, m, t.ids + 1);
    LoadBelowMonotone(s, m, t, k, t.ids + 1);
  }

  lemma LoadPlusOne(s: MemoryState, m: Measure, t: MemoryState, k: Measure, a: Id)
    requires AttemptIdsKnown(s) && s.ids <= t.ids && a !in s.attempts && a in t.attempts
    requires forall b :: b in t.attempts && b != a ==>
      b in s.attempts && AttemptWeight(t, k, t.attempts[b]) <= AttemptWeight(s, m, s.attempts[b])
    ensures Load(t, k) <= Load(s, m) + AttemptWeight(t, k, t.attempts[a])
  {
    LoadBelowSettles(s, m, t.ids + 1);
    LoadBelowPlusOne(s, m, t, k, t.ids + 1, a, AttemptWeight(t, k, t.attempts[a]));
  }

  /** A weighing attempt is counted. */
  lemma {:induction false} LoadCounts(s: MemoryState, m: Measure, a: Id, n: nat)
    requires a < n
    ensures LoadBelow(s, m, n) >= Weight(s, m, a)
  {
    if a < n - 1 {
      LoadCounts(s, m, a, n - 1);
    }
  }
}
