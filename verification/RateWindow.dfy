/**
 The promise of a rate limit: no closed window of its length holds more than `limit`
 starts of one scope, a pool shared by several jobs of a project included.
 */
module RateWindow {
  import opened Domain
  import opened RateLimit
  import opened Loads
  import opened Schedule
  import opened Transitions
  import opened Invariant
  import opened Steps
  import opened Traces
  import opened Capacity

  function JobSpec(job: Job): Option<RateLimitSpec> {
    match job.rateLimitSpec
    case None => None
    case Some(raw) => match ParseRateLimitSpec(raw) case Ok(spec) => Some(spec) case Err(_) => None
  }

  /** No window of the job's length holds more starts of its scope than its limit. */
  ghost predicate WindowsWithin(s: MemoryState, job: Job) {
    JobSpec(job).Some? ==> forall from: Millis :: WindowWithin(s, job, from)
  }

  predicate WindowWithin(s: MemoryState, job: Job, from: Millis) {
    JobSpec(job).Some? ==>
      var spec := JobSpec(job).value;
      Load(s, StartsWithin(ScopeOf(job, spec), from, from + spec.windowMs)) <= spec.limit
  }

  ghost predicate RatesKept(s: MemoryState) {
    forall j {:trigger WindowsWithin(s, s.jobs[j])} :: j in s.jobs ==> WindowsWithin(s, s.jobs[j])
  }

  predicate SamePool(x: Job, y: Job) {
    && x.projectId == y.projectId
    && JobSpec(x).Some? && JobSpec(y).Some?
    && JobSpec(x).value.pool.Some? && JobSpec(x).value.pool == JobSpec(y).value.pool
  }

  /** One definition per pool, which the service checks within each deploy. */
  ghost predicate PoolsAgree(s: MemoryState) {
    forall i, j {:trigger SamePool(s.jobs[i], s.jobs[j])} ::
      i in s.jobs && j in s.jobs && SamePool(s.jobs[i], s.jobs[j]) ==> JobSpec(s.jobs[i]) == JobSpec(s.jobs[j])
  }

  /** The rate limit is lifted, or loosened within its pool: no lower a limit over no longer
      a window. */
  predicate RateNotTightened(x: Job, y: Job) {
    && x.id == y.id && x.projectId == y.projectId
    && (JobSpec(y).Some? ==>
          && JobSpec(x).Some? && JobSpec(x).value.pool == JobSpec(y).value.pool
          && JobSpec(x).value.limit <= JobSpec(y).value.limit && JobSpec(y).value.windowMs <= JobSpec(x).value.windowMs)
  }

  /** Redeploys leave existing jobs in their projects and tighten no rate limit. */
  ghost predicate RatesNotTightened(s: MemoryState, t: MemoryState) {
    && s.jobs.Keys <= t.jobs.Keys
    && forall j {:trigger RateNotTightened(s.jobs[j], t.jobs[j])} :: j in s.jobs ==> RateNotTightened(s.jobs[j], t.jobs[j])
  }

  // ----- Starts over a step -----

  predicate IsStarts(m: Measure) { m.StartsSince? || m.StartsWithin? }

  /** `wide` counts whatever `m` counts, from no later a time to no earlier one. */
  predicate Widens(wide: Measure, m: Measure) {
    && IsStarts(wide) && IsStarts(m) && wide.scope == m.scope && wide.from <= m.from
    && (wide.StartsWithin? ==> m.StartsWithin? && m.upTo <= wide.upTo)
  }

  lemma StartsOfOne(s: MemoryState, t: MemoryState, wide: Measure, m: Measure, a: Id)
    requires Inv(s) && Inv(t) && Evolves(s, t) && RatesNotTightened(s, t)
    requires Widens(wide, m) && a in s.attempts
    ensures AttemptWeight(t, m, t.attempts[a]) <= AttemptWeight(s, wide, s.attempts[a])
  {
    hide ParseRateLimitSpec, Numbered, LeasesOk, HealthKeyed;
    assert AttemptOk(s, s.attempts[a]);
    assert AttemptEvolves(s.attempts[a], t.attempts[a]);
    var runId := s.attempts[a].runId;
    assert RunEvolves(s.runs[runId], t.runs[runId]);
    assert RunOk(s, s.runs[runId]);
    var jobId := s.runs[runId].jobId;
    LooserStaysInScope(s.jobs[jobId], t.jobs[jobId], m.scope);
  }

  lemma LooserStaysInScope(x: Job, y: Job, scope: Scope)
    requires RateNotTightened(x, y)
    ensures InScope(y, scope) ==> InScope(x, scope)
  {
    hide ParseRateLimitSpec;
  }

  lemma StartsStay(s: MemoryState, t: MemoryState, wide: Measure, m: Measure)
    requires Inv(s) && Inv(t) && Evolves(s, t) && RatesNotTightened(s, t)
    requires Widens(wide, m) && t.attempts.Keys == s.attempts.Keys
    ensures Load(t, m) <= Load(s, wide)
  {
    hide Numbered, LeasesOk, RunsOk, AttemptsOk, HealthKeyed, RatesNotTightened, Load, AttemptWeight;
    forall a | a in t.attempts
      ensures AttemptWeight(t, m, t.attempts[a]) <= AttemptWeight(s, wide, s.attempts[a])
    {
      StartsOfOne(s, t, wide, m, a);
    }
    LoadMonotone(s, wide, t, m);
  }

  /** A scope that no job of `s` is in any more has seen no start of theirs. */
  lemma EmptyScope(s: MemoryState, t: MemoryState, m: Measure)
    requires Inv(s) && Inv(t) && Evolves(s, t) && t.attempts.Keys == s.attempts.Keys && IsStarts(m)
    requires forall j :: j in s.jobs ==> j in t.jobs && !InScope(t.jobs[j], m.scope)
    ensures Load(t, m) == 0
  {
    hide Numbered, LeasesOk, HealthKeyed, InScope;
    forall a | a in t.attempts
      ensures AttemptWeight(t, m, t.attempts[a]) == 0
    {
      assert AttemptOk(s, s.attempts[a]);
      assert AttemptEvolves(s.attempts[a], t.attempts[a]);
      var runId := s.attempts[a].runId;
      assert RunEvolves(s.runs[runId], t.runs[runId]);
      assert RunOk(s, s.runs[runId]);
    }
    LoadBelowZero(t, m, t.ids + 1);
  }

  /** Whoever is in the scope of `job` is bound by the very same spec. */
  lemma ScopeMatesAgree(s: MemoryState, job: Job, i: string)
    requires Inv(s) && PoolsAgree(s) && i in s.jobs
    requires job.id in s.jobs && s.jobs[job.id] == job && JobSpec(job).Some?
    requires InScope(s.jobs[i], ScopeOf(job, JobSpec(job).value))
    ensures JobSpec(s.jobs[i]) == JobSpec(job)
    ensures ScopeOf(s.jobs[i], JobSpec(job).value) == ScopeOf(job, JobSpec(job).value)
  {
    if JobSpec(job).value.pool.Some? {
      assert SamePool(s.jobs[i], s.jobs[job.id]);
    }
  }

  lemma WindowsWithoutNewStarts(s: MemoryState, t: MemoryState)
    requires Inv(s) && Inv(t) && Evolves(s, t) && RatesNotTightened(s, t) && PoolsAgree(t)
    requires RatesKept(s) && t.attempts.Keys == s.attempts.Keys
    ensures RatesKept(t)
  {
    hide Inv, Evolves, RatesNotTightened, PoolsAgree, WindowWithin;
    forall j, from: Millis | j in t.jobs
      ensures WindowWithin(t, t.jobs[j], from)
    {
      WindowWithoutNewStarts(s, t, j, from);
    }
  }

  lemma WindowWithoutNewStarts(s: MemoryState, t: MemoryState, j: string, from: Millis)
    requires Inv(s) && Inv(t) && Evolves(s, t) && RatesNotTightened(s, t) && PoolsAgree(t)
    requires RatesKept(s) && t.attempts.Keys == s.attempts.Keys && j in t.jobs
    ensures WindowWithin(t, t.jobs[j], from)
  {
    hide Load, RunsOk, AttemptsOk, LeasesOk, Numbered, HealthKeyed, Evolves, PoolsAgree, ParseRateLimitSpec, InScope;
    var job := t.jobs[j];
    if JobSpec(job).Some? {
      var spec := JobSpec(job).value;
      var scope := ScopeOf(job, spec);
      var m := StartsWithin(scope, from, from + spec.windowMs);
      if i :| i in s.jobs && InScope(t.jobs[i], scope) {
        assert RateNotTightened(s.jobs[i], t.jobs[i]);
        ScopeMatesAgree(t, job, i);
        assert WindowsWithin(s, s.jobs[i]);
        assert WindowWithin(s, s.jobs[i], from);
        StartsStay(s, t, StartsWithin(scope, from, from + JobSpec(s.jobs[i]).value.windowMs), m);
      } else {
        EmptyScope(s, t, m);
      }
    }
  }

  /** A start admitted by the rate check keeps every window within its limit: a closed
      window that contains it reaches back no further than the check looked. */
  lemma WindowAfterGrant(s: MemoryState, g: Leased, t: MemoryState, j: string, from: Millis)
    requires Inv(s) && Inv(t) && GrantFits(s, g) && t == AfterGrant(s, g)
    requires PoolsAgree(s) && RatesKept(s) && j in s.jobs
    requires RunOk(s, s.runs[g.attempt.runId])
    requires RateVerdict(s, s.jobs[s.runs[g.attempt.runId].jobId], g.attempt.startedAt).Leasable?
    ensures WindowWithin(t, t.jobs[j], from)
  {
    hide ParseRateLimitSpec, AttemptsOk, LeasesOk, Numbered;
    var job := s.jobs[j];
    if JobSpec(job).Some? {
      var spec := JobSpec(job).value;
      var scope := ScopeOf(job, spec);
      var m := StartsWithin(scope, from, from + spec.windowMs);
      var leased := s.jobs[s.runs[g.attempt.runId].jobId];
      var now := g.attempt.startedAt;
      assert WindowsWithin(s, job);
      assert WindowWithin(s, job, from);
      if InScope(leased, scope) && from <= now <= from + spec.windowMs {
        ScopeMatesAgree(s, job, leased.id);
        StartsAfterGrant(s, g, t, StartsSince(scope, now - spec.windowMs), m);
      } else {
        StartsAfterGrant(s, g, t, m, m);
      }
    }
  }

  /** Starts in a window after a grant: those the wider measure counted, plus the new one. */
  lemma StartsAfterGrant(s: MemoryState, g: Leased, t: MemoryState, wide: Measure, m: Measure)
    requires Inv(s) && Inv(t) && GrantFits(s, g) && t == AfterGrant(s, g)
    requires Widens(wide, m)
    ensures Load(t, m) <= Load(s, wide) + AttemptWeight(t, m, g.attempt)
  {
    GrantEvolves(s, g, t);
    forall b | b in t.attempts && b != g.attempt.id
      ensures b in s.attempts && AttemptWeight(t, m, t.attempts[b]) <= AttemptWeight(s, wide, s.attempts[b])
    {
      StartsOfOne(s, t, wide, m, b);
    }
    LoadPlusOne(s, wide, t, m, g.attempt.id);
  }

  lemma LeaseKeepsRates(s: MemoryState, runnerId: string, ttlSecs: nat, now: Millis, pick: Pick)
    requires Inv(s) && PoolsAgree(s) && RatesKept(s) && LeasePickAllowed(s, runnerId, now, pick)
    ensures RatesKept(LeaseNext(s, runnerId, ttlSecs, now, pick).next)
  {
    var r, t := Recover(s, now), LeaseNext(s, runnerId, ttlSecs, now, pick).next;
    RecoverKeepsInv(s, now);
    RecoverEvolves(s, now);
    WindowsWithoutNewStarts(s, r);
    LeaseIsRecoverThenGrant(s, runnerId, ttlSecs, now, pick);
    if t != r {
      GrantKeepsRates(r, pick.runId, runnerId, ttlSecs, now);
    }
  }

  lemma GrantKeepsRates(s: MemoryState, runId: Id, runnerId: string, ttlSecs: nat, now: Millis)
    requires Inv(s) && PoolsAgree(s) && RatesKept(s) && runId in s.runs && runnerId in s.runners
    requires Judge(s, s.runs[runId], s.runners[runnerId], now).Leasable?
    ensures RatesKept(AfterGrant(s, Grant(s, runId, runnerId, ttlSecs, now)))
  {
    var g := Grant(s, runId, runnerId, ttlSecs, now);
    var t := AfterGrant(s, g);
    GrantKeepsInv(s, runId, runnerId, ttlSecs, now);
    assert RunOk(s, s.runs[runId]);
    forall j, from: Millis | j in t.jobs
      ensures WindowWithin(t, t.jobs[j], from)
    {
      WindowAfterGrant(s, g, t, j, from);
    }
  }

  lemma StepKeepsRates(zones: ZoneDb, s: MemoryState, e: Event)
    requires Inv(s) && SpecsParse(s) && Enabled(s, e) && RatesKept(s) && PoolsAgree(s)
    requires RatesNotTightened(s, Apply(zones, s, e)) && PoolsAgree(Apply(zones, s, e))
    ensures RatesKept(Apply(zones, s, e))
  {
    hide Inv, RatesKept, RatesNotTightened, PoolsAgree, Evolves, LeasePickAllowed, LeaseNext;
    if e.step.LeaseStep? {
      LeaseKeepsRates(s, e.step.runnerId, e.step.leaseTtlSecs, e.now, e.step.pick);
    } else {
      StepKeepsInv(zones, s, e);
      StepEvolves(zones, s, e);
      OnlyLeasingAddsAttempts(zones, s, e);
      WindowsWithoutNewStarts(s, Apply(zones, s, e));
    }
  }

  /** Over every run of the store in which pools have one definition and redeploys tighten
      no rate limit of an existing job, no closed window of `windowMs` in any
      reachable state contains more than `limit` attempt starts of one scope. */
  lemma {:induction false} RateLimitsAreKept(tr: Trace, i: nat)
    requires IsTrace(tr) && i < |tr.states|
    requires forall k :: 0 <= k <= i ==> PoolsAgree(tr.states[k])
    requires forall k :: 0 <= k < i ==> RatesNotTightened(tr.states[k], tr.states[k + 1])
    ensures RatesKept(tr.states[i])
  {
    hide Inv, RatesNotTightened, PoolsAgree, Apply, Enabled;
    if i > 0 {
      RateLimitsAreKept(tr, i - 1);
      ReachableStatesAreLinked(tr, i - 1);
      assert StepAt(tr, i - 1);
      assert RatesNotTightened(tr.states[i - 1], tr.states[i - 1 + 1]);
      StepKeepsRates(tr.zones, tr.states[i - 1], tr.events[i - 1]);
    }
  }
}
