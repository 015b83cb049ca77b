/**
 What the service checks before a deploy reaches the store: every rate-limit spec parses
 and every pool has one definition within the deploy.
 */
module Service {
  import opened Domain
  import opened RateLimit
  import opened Transitions
  import opened Invariant
  import opened Schedule
  import opened Steps
  import opened Traces
  import opened RateWindow

  function PoolOf(raw: Option<string>): Option<string> {
    if raw.Some? && ParseRateLimitSpec(raw.value).Ok? then ParseRateLimitSpec(raw.value).value.pool else None
  }

  /** The two specs name one pool but are written differently. */
  predicate Conflict(x: Option<string>, y: Option<string>) {
    PoolOf(x).Some? && PoolOf(x) == PoolOf(y) && x != y
  }

  /** The pool was last seen, below `n`, written as `raw`. */
  predicate SeenAs(specs: seq<Option<string>>, n: nat, pool: string, raw: string) {
    exists i :: 0 <= i < n <= |specs| && specs[i] == Some(raw) && PoolOf(specs[i]) == Some(pool)
  }

  predicate Recorded(pools: map<string, string>, spec: Option<string>) {
    PoolOf(spec).Some? ==> PoolOf(spec).value in pools && spec == Some(pools[PoolOf(spec).value])
  }

  /** `validate_rate_limit_pools`, as the loop over a map of the pools seen so far. */
  method ValidateRateLimitPools(specs: seq<Option<string>>) returns (r: Result<()>)
    ensures r.Ok? <==>
      && (forall i :: 0 <= i < |specs| ==> Parses(specs[i]))
      && (forall i, j :: 0 <= i < j < |specs| ==> !Conflict(specs[i], specs[j]))
  {
    hide ParseRateLimitSpec;
    var pools: map<string, string> := map[];
    var n := 0;
    while n < |specs|
      invariant 0 <= n <= |specs|
      invariant forall i :: 0 <= i < n ==> Parses(specs[i])
      invariant forall i :: 0 <= i < n ==> Recorded(pools, specs[i])
      invariant forall pool :: pool in pools ==> SeenAs(specs, n, pool, pools[pool])
    {
      var raw := specs[n];
      SeenLonger(specs, n, pools);
      n := n + 1;
      if raw.None? {
        continue;
      }
      var parsed := ParseRateLimitSpec(raw.value);
      if parsed.Err? {
        assert !Parses(specs[n - 1]);
        return Err(BadRateLimit);
      }
      if parsed.value.pool.None? {
        continue;
      }
      var pool := parsed.value.pool.value;
      if pool in pools {
        if pools[pool] != raw.value {
          var i :| 0 <= i < n && specs[i] == Some(pools[pool]) && PoolOf(specs[i]) == Some(pool);
          assert Conflict(specs[i], specs[n - 1]);
          return Err(ConflictingPool);
        }
        continue;
      }
      pools := pools[pool := raw.value];
      assert SeenAs(specs, n, pool, raw.value) by { assert PoolOf(specs[n - 1]) == Some(pool); }
    }
    forall i, j | 0 <= i < j < |specs|
      ensures !Conflict(specs[i], specs[j])
    {
      assert Recorded(pools, specs[i]) && Recorded(pools, specs[j]);
    }
    r := Ok(());
  }

  lemma SeenLonger(specs: seq<Option<string>>, n: nat, pools: map<string, string>)
    requires n < |specs| && forall pool :: pool in pools ==> SeenAs(specs, n, pool, pools[pool])
    ensures forall pool :: pool in pools ==> SeenAs(specs, n + 1, pool, pools[pool])
  {
    forall pool | pool in pools
      ensures SeenAs(specs, n + 1, pool, pools[pool])
    {
      var i :| 0 <= i < n && specs[i] == Some(pools[pool]) && PoolOf(specs[i]) == Some(pool);
    }
  }

  /** What the service lets through: the condition above on a deploy's jobs. */
  ghost predicate Validated(params: seq<JobParams>) {
    && (forall i :: 0 <= i < |params| ==> Parses(params[i].rateLimitSpec))
    && (forall i, j :: 0 <= i < j < |params| ==> !Conflict(params[i].rateLimitSpec, params[j].rateLimitSpec))
  }

  predicate Replaced(params: seq<JobParams>, j: string) { exists i :: 0 <= i < |params| && params[i].id == j }

  /** The `i`-th entry is the last one for its id, so it is the one that stays. */
  predicate Stays(params: seq<JobParams>, i: int) {
    0 <= i < |params| && forall k :: i < k < |params| ==> params[k].id != params[i].id
  }

  /** A deploy leaves a job it does not name as it was. */
  lemma {:induction false} NotNamedStays(jobs: map<string, Job>, params: seq<JobParams>, projectId: string, deployId: Id, now: Millis, j: string)
    requires !Replaced(params, j)
    ensures var after := InsertJobs(jobs, params, projectId, deployId, now);
      (j in after <==> j in jobs) && (j in jobs ==> after[j] == jobs[j])
    decreases |params|
  {
    if params != [] {
      var init, last := params[..|params| - 1], params[|params| - 1];
      assert forall i :: 0 <= i < |init| ==> init[i] == params[i];
      NotNamedStays(jobs, init, projectId, deployId, now, j);
    }
  }

  /** The last entry for an id is what the deploy leaves under it. */
  lemma {:induction false} LastEntryStays(jobs: map<string, Job>, params: seq<JobParams>, projectId: string, deployId: Id, now: Millis, j: string)
    returns (i: int)
    requires Replaced(params, j)
    ensures Stays(params, i) && params[i].id == j
    ensures var after := InsertJobs(jobs, params, projectId, deployId, now);
      j in after && after[j] == DeployedJob(params[i], projectId, deployId, now)
    decreases |params|
  {
    var init, last := params[..|params| - 1], params[|params| - 1];
    if j == last.id {
      i := |params| - 1;
    } else {
      assert Replaced(init, j) by {
        var k :| 0 <= k < |params| && params[k].id == j;
        assert init[k].id == j;
      }
      i := LastEntryStays(jobs, init, projectId, deployId, now, j);
      assert params[i] == init[i];
    }
  }

  /** A job that stays behind in the project agrees with the deploy on every pool both use. */
  ghost predicate PoolsFit(s: MemoryState, projectId: string, params: seq<JobParams>) {
    forall j, i {:trigger Replaced(params, j), Stays(params, i)} ::
      j in s.jobs && !Replaced(params, j) && Stays(params, i) ==> PoolFits(s.jobs[j], projectId, params[i])
  }

  predicate PoolFits(job: Job, projectId: string, p: JobParams) {
    job.projectId == projectId && PoolOf(p.rateLimitSpec).Some? && PoolOf(job.rateLimitSpec) == PoolOf(p.rateLimitSpec) ==>
      ParseRateLimitSpec(job.rateLimitSpec.value) == ParseRateLimitSpec(p.rateLimitSpec.value)
  }

  /** A validated deploy keeps every pool to one definition exactly when each job that
      stays behind in the project agrees with it on the pools both use. */
  lemma ValidatedDeployKeepsPools(s: MemoryState, projectId: string, params: seq<JobParams>, now: Millis)
    requires Inv(s) && PoolsAgree(s) && Validated(params) && projectId in s.projects
    ensures PoolsAgree(RegisterDeploy(s, projectId, params, now).next) <==> PoolsFit(s, projectId, params)
  {
    hide ParseRateLimitSpec, InsertJobs, SamePool, Replaced, PoolFits, Validated;
    if PoolsFit(s, projectId, params) {
      FittingDeploy(s, projectId, params, now);
    } else {
      var j, i :| j in s.jobs && !Replaced(params, j) && Stays(params, i) && !PoolFits(s.jobs[j], projectId, params[i]);
      MisfitDiverges(s, projectId, params, now, j, i);
    }
  }

  lemma MisfitDiverges(s: MemoryState, projectId: string, params: seq<JobParams>, now: Millis, j: string, i: int)
    requires Inv(s) && projectId in s.projects
    requires j in s.jobs && !Replaced(params, j) && Stays(params, i) && !PoolFits(s.jobs[j], projectId, params[i])
    ensures !PoolsAgree(RegisterDeploy(s, projectId, params, now).next)
  {
    hide ParseRateLimitSpec, InsertJobs;
    var t := RegisterDeploy(s, projectId, params, now).next;
    NotNamedStays(s.jobs, params, projectId, s.ids + 1, now, j);
    var k := LastEntryStays(s.jobs, params, projectId, s.ids + 1, now, params[i].id);
    assert k == i;
    assert SamePool(t.jobs[j], t.jobs[params[i].id]);
  }

  lemma FittingDeploy(s: MemoryState, projectId: string, params: seq<JobParams>, now: Millis)
    requires PoolsAgree(s) && Validated(params) && projectId in s.projects && PoolsFit(s, projectId, params)
    ensures PoolsAgree(RegisterDeploy(s, projectId, params, now).next)
  {
    hide RegisterDeploy, SamePool, Validated, PoolsFit, JobSpec;
    var t := RegisterDeploy(s, projectId, params, now).next;
    forall x, y | x in t.jobs && y in t.jobs && SamePool(t.jobs[x], t.jobs[y])
      ensures JobSpec(t.jobs[x]) == JobSpec(t.jobs[y])
    {
      FittingPair(s, projectId, params, now, x, y);
    }
  }

  lemma FittingPair(s: MemoryState, projectId: string, params: seq<JobParams>, now: Millis, x: string, y: string)
    requires PoolsAgree(s) && Validated(params) && projectId in s.projects && PoolsFit(s, projectId, params)
    requires var t := RegisterDeploy(s, projectId, params, now).next;
      x in t.jobs && y in t.jobs && SamePool(t.jobs[x], t.jobs[y])
    ensures var t := RegisterDeploy(s, projectId, params, now).next; JobSpec(t.jobs[x]) == JobSpec(t.jobs[y])
  {
    hide InsertJobs, SamePool, JobSpec, Validated, PoolFits, Replaced;
    var t, deployId := RegisterDeploy(s, projectId, params, now).next, s.ids + 1;
    if Replaced(params, x) {
      var i := LastEntryStays(s.jobs, params, projectId, deployId, now, x);
      if Replaced(params, y) {
        var k := LastEntryStays(s.jobs, params, projectId, deployId, now, y);
        DeployedTogether(params, i, k, projectId, deployId, now);
      } else {
        NotNamedStays(s.jobs, params, projectId, deployId, now, y);
        SamePoolSymmetric(t.jobs[x], t.jobs[y]);
        FittingJobs(t.jobs[y], projectId, params[i], deployId, now);
      }
    } else {
      NotNamedStays(s.jobs, params, projectId, deployId, now, x);
      if Replaced(params, y) {
        var k := LastEntryStays(s.jobs, params, projectId, deployId, now, y);
        FittingJobs(t.jobs[x], projectId, params[k], deployId, now);
      } else {
        NotNamedStays(s.jobs, params, projectId, deployId, now, y);
        assert SamePool(s.jobs[x], s.jobs[y]);
      }
    }
  }

  lemma SamePoolSymmetric(x: Job, y: Job)
    requires SamePool(x, y)
    ensures SamePool(y, x)
  {}

  lemma FittingJobs(job: Job, projectId: string, p: JobParams, deployId: Id, now: Millis)
    requires PoolFits(job, projectId, p) && SamePool(job, DeployedJob(p, projectId, deployId, now))
    ensures JobSpec(job) == JobSpec(DeployedJob(p, projectId, deployId, now))
  {
    hide ParseRateLimitSpec;
  }

  lemma DeployedTogether(params: seq<JobParams>, i: int, k: int, projectId: string, deployId: Id, now: Millis)
    requires Validated(params) && 0 <= i < |params| && 0 <= k < |params|
    requires SamePool(DeployedJob(params[i], projectId, deployId, now), DeployedJob(params[k], projectId, deployId, now))
    ensures JobSpec(DeployedJob(params[i], projectId, deployId, now)) == JobSpec(DeployedJob(params[k], projectId, deployId, now))
  {
    hide ParseRateLimitSpec;
    assert i < k ==> !Conflict(params[i].rateLimitSpec, params[k].rateLimitSpec);
    assert k < i ==> !Conflict(params[k].rateLimitSpec, params[i].rateLimitSpec);
  }

  /** Up to step `i` every deploy passed the check and fits the jobs it leaves behind. */
  ghost predicate DeploysFit(tr: Trace, i: nat)
    requires IsTrace(tr) && i < |tr.states|
  {
    forall k {:trigger DeployFits(tr, k)} :: 0 <= k < i ==> DeployFits(tr, k)
  }

  ghost predicate DeployFits(tr: Trace, k: int)
    requires IsTrace(tr)
  {
    0 <= k < |tr.events| && tr.events[k].step.Deploy? ==>
      && Validated(tr.events[k].step.params)
      && PoolsFit(tr.states[k], tr.events[k].step.projectId, tr.events[k].step.params)
  }

  lemma {:induction false} PoolsAgreeThroughout(tr: Trace, i: nat)
    requires IsTrace(tr) && i < |tr.states| && DeploysFit(tr, i)
    ensures PoolsAgree(tr.states[i])
  {
    if i > 0 {
      hide Inv, Enabled, PoolsFit, Validated, PoolsAgree, Apply;
      PoolsAgreeThroughout(tr, i - 1);
      ReachableStatesAreLinked(tr, i - 1);
      assert StepAt(tr, i - 1) && DeployFits(tr, i - 1);
      StepKeepsPools(tr.zones, tr.states[i - 1], tr.events[i - 1]);
    }
  }

  lemma StepKeepsPools(zones: ZoneDb, s: MemoryState, e: Event)
    requires Inv(s) && PoolsAgree(s)
    requires e.step.Deploy? ==> Validated(e.step.params) && PoolsFit(s, e.step.projectId, e.step.params)
    ensures PoolsAgree(Apply(zones, s, e))
  {
    hide Inv, JobSpec, Tick, LeaseNext, Complete, Cancel, Recover, Enqueue, Replay, RenewLeases;
    if !e.step.Deploy? {
      StepKeepsJobs(zones, s, e);
    } else if e.step.projectId in s.projects {
      FittingDeploy(s, e.step.projectId, e.step.params, e.now);
    }
  }

  /** When every deploy passes the service's check and fits the jobs it leaves behind, and
      redeploys tighten no rate, the rate limits are kept in every reachable state. */
  lemma FittingDeploysKeepRates(tr: Trace, i: nat)
    requires IsTrace(tr) && i < |tr.states| && DeploysFit(tr, i)
    requires forall k :: 0 <= k < i ==> RatesNotTightened(tr.states[k], tr.states[k + 1])
    ensures RatesKept(tr.states[i])
  {
    hide PoolsAgree, RatesKept, RatesNotTightened;
    forall k | 0 <= k <= i
      ensures PoolsAgree(tr.states[k])
    {
      assert forall m :: 0 <= m < k ==> DeployFits(tr, m);
      PoolsAgreeThroughout(tr, k);
    }
    RateLimitsAreKept(tr, i);
  }

  function PooledJob(id: string, pool: string, limit: nat): JobParams {
    JobParams(id, None, 0, Some(FormatRateLimitSpec(RateLimitSpec(Some(pool), limit, 1_000))), None, None, None, None)
  }

  /** The service's check looks at one deploy at a time: two deploys that both pass it
      can leave a pool with two definitions. */
  lemma PoolsCanDivergeAcrossDeploys(s: MemoryState, projectId: string, now: Millis)
    requires Inv(s) && projectId in s.projects && s.jobs == map[]
    ensures var first, second := [PooledJob("a", "p", 1)], [PooledJob("b", "p", 2)];
      && Validated(first) && Validated(second)
      && !PoolsAgree(RegisterDeploy(RegisterDeploy(s, projectId, first, now).next, projectId, second, now).next)
  {
    hide ParseRateLimitSpec, FormatRateLimitSpec, PoolsAgree, InsertJobs, Inv;
    var first, second := [PooledJob("a", "p", 1)], [PooledJob("b", "p", 2)];
    SpecRoundTrip(RateLimitSpec(Some("p"), 1, 1_000));
    SpecRoundTrip(RateLimitSpec(Some("p"), 2, 1_000));
    RegisterDeployKeepsInv(s, projectId, first, now);
    var t := RegisterDeploy(s, projectId, first, now).next;
    assert first[0].id == "a";
    var i := LastEntryStays(s.jobs, first, projectId, s.ids + 1, now, "a");
    assert Stays(second, 0) && second[0].id == "b" && !Replaced(second, "a");
    MisfitDiverges(t, projectId, second, now, "a", 0);
  }
}
