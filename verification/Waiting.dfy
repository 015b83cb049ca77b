/**
 What the service tells a caller about a queued run, and that the lease step agrees: a
 run reported as waiting on concurrency or on a rate limit is one it would refuse.
 */
module Waiting {
  import opened Domain
  import opened Text
  import opened RateLimit
  import opened Loads
  import opened Transitions
  import opened Invariant
  import opened RateWindow
  import opened Eligibility

  // ----- Concurrency status -----

  /** `active_run_ids_for_job` over the attempts with an id below `n`, duplicates dropped. */
  function ActiveRunsBelow(s: MemoryState, jobId: string, n: nat): set<Id> {
    if n == 0 then {}
    else
      ActiveRunsBelow(s, jobId, n - 1)
      + if Weight(s, JobRunning(jobId), n - 1) == 1 then {s.attempts[n - 1].runId} else {}
  }

  function ActiveRuns(s: MemoryState, jobId: string): set<Id> { ActiveRunsBelow(s, jobId, s.ids + 1) }

  lemma {:induction false} ActiveRunsAre(s: MemoryState, jobId: string, n: nat, r: Id)
    ensures r in ActiveRunsBelow(s, jobId, n) <==>
      exists a :: a in s.attempts && a < n && RunsFor(s.attempts[a], r) && r in s.runs && s.runs[r].jobId == jobId
  {
    if n > 0 {
      ActiveRunsAre(s, jobId, n - 1, r);
    }
  }

  /** Because no run has two running attempts, the distinct active runs that the status
      lists are as many as the running attempts that the lease step counts. */
  lemma {:induction false} ActiveRunsAreCounted(s: MemoryState, jobId: string, n: nat)
    requires Inv(s)
    ensures |ActiveRunsBelow(s, jobId, n)| == LoadBelow(s, JobRunning(jobId), n)
  {
    if n > 0 {
      ActiveRunsAreCounted(s, jobId, n - 1);
      if Weight(s, JobRunning(jobId), n - 1) == 1 {
        NextActiveRunIsNew(s, jobId, n);
      }
    }
  }

  lemma NextActiveRunIsNew(s: MemoryState, jobId: string, n: nat)
    requires Inv(s) && n > 0 && Weight(s, JobRunning(jobId), n - 1) == 1
    ensures s.attempts[n - 1].runId !in ActiveRunsBelow(s, jobId, n - 1)
  {
    hide ActiveRunsBelow, Inv;
    var r := s.attempts[n - 1].runId;
    ActiveRunsAre(s, jobId, n - 1, r);
    RunningRunsAreLeased(s, r);
    assert RunsFor(s.attempts[n - 1], r);
  }

  // ----- Rate-limit status -----

  datatype RateStatus = RateStatus(scopeKey: string, limit: nat, windowMs: nat, recentStarts: nat, waiting: set<Id>)

  /** `rate_limit_scope_key`. */
  function ScopeKey(job: Job, spec: RateLimitSpec): string {
    match spec.pool
    case Some(pool) => "pool:" + job.projectId + ":" + pool
    case None => "job:" + job.id
  }

  predicate ConcurrencyOpen(s: MemoryState, run: Run) {
    && run.jobId in s.jobs
    && (s.jobs[run.jobId].concurrencyLimit.Some? ==>
          |ActiveRuns(s, run.jobId)| < s.jobs[run.jobId].concurrencyLimit.value)
  }

  predicate RateWaiter(s: MemoryState, scope: Scope, run: Run, now: Millis) {
    && run.jobId in s.jobs && InScope(s.jobs[run.jobId], scope)
    && run.status.Queued?
    && !(run.retryAfter.Some? && run.retryAfter.value > now)
    && run.failureClass != Some(BlockedByDownstream)
    && ConcurrencyOpen(s, run)
  }

  /** The status that one job gives for its scope. */
  function StatusOf(s: MemoryState, job: Job, spec: RateLimitSpec, now: Millis): RateStatus {
    var scope := ScopeOf(job, spec);
    var recent := Load(s, StartsSince(scope, now - spec.windowMs));
    RateStatus(ScopeKey(job, spec), spec.limit, spec.windowMs, recent,
               if recent >= spec.limit then set r | r in s.runs && RateWaiter(s, scope, s.runs[r], now) else {})
  }

  predicate StatusFrom(s: MemoryState, status: RateStatus, jobId: string, now: Millis) {
    && jobId in s.jobs && JobSpec(s.jobs[jobId]).Some?
    && status == StatusOf(s, s.jobs[jobId], JobSpec(s.jobs[jobId]).value, now)
  }

  /** The status is that of some job of the store. */
  ghost predicate Genuine(s: MemoryState, status: RateStatus, now: Millis) { exists j :: StatusFrom(s, status, j, now) }

  /** The key of the job's scope, if it has one. */
  function KeyOfJob(s: MemoryState, jobId: string): Option<string> {
    if jobId in s.jobs && JobSpec(s.jobs[jobId]).Some? then Some(ScopeKey(s.jobs[jobId], JobSpec(s.jobs[jobId]).value))
    else None
  }

  /** The status is that of the first job in the order whose scope has its key. */
  ghost predicate FromFirst(s: MemoryState, order: seq<string>, status: RateStatus, now: Millis) {
    exists i ::
      && 0 <= i < |order| && StatusFrom(s, status, order[i], now)
      && forall k :: 0 <= k < i ==> KeyOfJob(s, order[k]) != Some(status.scopeKey)
  }

  /** The scope of the job, if it has one, is reported. */
  predicate Reported(s: MemoryState, statuses: seq<RateStatus>, jobId: string) {
    var key := KeyOfJob(s, jobId);
    key.Some? ==> HasKey(statuses, key.value)
  }

  predicate HasKey(statuses: seq<RateStatus>, key: string) {
    exists i :: 0 <= i < |statuses| && statuses[i].scopeKey == key
  }

  /** The statuses tell the first `n` jobs of the order: each from the first job with its
      scope key, one per key, and none of those jobs' keys missing. */
  ghost predicate Collected(s: MemoryState, order: seq<string>, n: nat, statuses: seq<RateStatus>, now: Millis)
    requires n <= |order| && forall i :: 0 <= i < n ==> order[i] in s.jobs
  {
    && (forall i :: 0 <= i < n ==> Parses(s.jobs[order[i]].rateLimitSpec))
    && (forall i :: 0 <= i < |statuses| ==> FromFirst(s, order, statuses[i], now))
    && (forall i, k :: 0 <= i < k < |statuses| ==> statuses[i].scopeKey != statuses[k].scopeKey)
    && (forall i :: 0 <= i < n ==> Reported(s, statuses, order[i]))
  }

  /** `list_rate_limit_status`, visiting the jobs in some order: one status per scope
      key, taken from the first job that has it. */
  method ListRateLimitStatus(s: MemoryState, order: seq<string>, now: Millis) returns (r: Result<seq<RateStatus>>)
    requires Keyed(s) && forall j :: j in order <==> j in s.jobs
    ensures r.Err? <==> exists j :: j in s.jobs && !Parses(s.jobs[j].rateLimitSpec)
    ensures r.Ok? ==> forall i :: 0 <= i < |r.value| ==> FromFirst(s, order, r.value[i], now) && Genuine(s, r.value[i], now)
    ensures r.Ok? ==> forall i, k :: 0 <= i < k < |r.value| ==> r.value[i].scopeKey != r.value[k].scopeKey
    ensures r.Ok? ==> forall j :: j in s.jobs ==> Reported(s, r.value, j)
  {
    hide Collected, HasKey, StatusOf, ScopeKey, FromFirst, Genuine;
    var statuses: seq<RateStatus> := [];
    assert forall i :: 0 <= i < |order| ==> order[i] in order;
    NoneCollected(s, order, now);
    var n := 0;
    while n < |order|
      invariant 0 <= n <= |order|
      invariant Collected(s, order, n, statuses, now)
    {
      var job := s.jobs[order[n]];
      if job.rateLimitSpec.Some? {
        var parsed := ParseRateLimitSpec(job.rateLimitSpec.value);
        if parsed.Err? {
          assert !Parses(s.jobs[order[n]].rateLimitSpec);
          return Err(parsed.error);
        }
        if !HasKey(statuses, ScopeKey(job, parsed.value)) {
          AddStatus(s, order, n, statuses, now);
          statuses := statuses + [StatusOf(s, job, parsed.value, now)];
        }
      }
      NextJob(s, order, n, statuses, now);
      n := n + 1;
    }
    AllCollected(s, order, statuses, now);
    r := Ok(statuses);
  }

  lemma NoneCollected(s: MemoryState, order: seq<string>, now: Millis)
    ensures Collected(s, order, 0, [], now)
  {}

  /** The status of a scope that is not listed yet. */
  lemma AddStatus(s: MemoryState, order: seq<string>, n: nat, statuses: seq<RateStatus>, now: Millis)
    requires n < |order| && (forall i :: 0 <= i <= n ==> order[i] in s.jobs) && Collected(s, order, n, statuses, now)
    requires JobSpec(s.jobs[order[n]]).Some?
    requires !HasKey(statuses, ScopeKey(s.jobs[order[n]], JobSpec(s.jobs[order[n]]).value))
    ensures var job := s.jobs[order[n]];
      && Collected(s, order, n, statuses + [StatusOf(s, job, JobSpec(job).value, now)], now)
      && HasKey(statuses + [StatusOf(s, job, JobSpec(job).value, now)], ScopeKey(job, JobSpec(job).value))
  {
    var job := s.jobs[order[n]];
    var status := StatusOf(s, job, JobSpec(job).value, now);
    assert StatusFrom(s, status, order[n], now);
    forall k | 0 <= k < n
      ensures KeyOfJob(s, order[k]) != Some(status.scopeKey)
    {
      assert Reported(s, statuses, order[k]);
    }
    HasKeyAppend(statuses, status);
    forall i | 0 <= i < n
      ensures Reported(s, statuses + [status], order[i])
    {
      assert Reported(s, statuses, order[i]);
    }
  }

  lemma NextJob(s: MemoryState, order: seq<string>, n: nat, statuses: seq<RateStatus>, now: Millis)
    requires n < |order| && (forall i :: 0 <= i <= n ==> order[i] in s.jobs) && Collected(s, order, n, statuses, now)
    requires Parses(s.jobs[order[n]].rateLimitSpec) && Reported(s, statuses, order[n])
    ensures Collected(s, order, n + 1, statuses, now)
  {
    hide FromFirst, Reported, Parses;
  }

  lemma AllCollected(s: MemoryState, order: seq<string>, statuses: seq<RateStatus>, now: Millis)
    requires forall j :: j in order <==> j in s.jobs
    requires (forall i :: 0 <= i < |order| ==> order[i] in s.jobs) && Collected(s, order, |order|, statuses, now)
    ensures forall i :: 0 <= i < |statuses| ==> FromFirst(s, order, statuses[i], now) && Genuine(s, statuses[i], now)
    ensures forall i, k :: 0 <= i < k < |statuses| ==> statuses[i].scopeKey != statuses[k].scopeKey
    ensures forall j :: j in s.jobs ==> Parses(s.jobs[j].rateLimitSpec) && Reported(s, statuses, j)
  {
    hide Genuine, FromFirst, Reported, Parses;
    forall i | 0 <= i < |statuses|
      ensures Genuine(s, statuses[i], now)
    {
      FirstIsGenuine(s, order, statuses[i], now);
    }
    forall j | j in s.jobs
      ensures Parses(s.jobs[j].rateLimitSpec) && Reported(s, statuses, j)
    {
      var i :| 0 <= i < |order| && order[i] == j;
    }
  }

  lemma FirstIsGenuine(s: MemoryState, order: seq<string>, status: RateStatus, now: Millis)
    requires FromFirst(s, order, status, now)
    ensures Genuine(s, status, now)
  {
    hide StatusFrom;
  }

  lemma HasKeyAppend(statuses: seq<RateStatus>, status: RateStatus)
    ensures forall key :: HasKey(statuses + [status], key) <==> HasKey(statuses, key) || key == status.scopeKey
  {
    var all := statuses + [status];
    forall key
      ensures HasKey(all, key) <==> HasKey(statuses, key) || key == status.scopeKey
    {
      if HasKey(statuses, key) {
        var i :| 0 <= i < |statuses| && statuses[i].scopeKey == key;
        assert all[i].scopeKey == key;
      }
      if key == status.scopeKey { assert all[|statuses|].scopeKey == key; }
    }
  }

  /** What a status says, over counted starts and the fields of the runs: a run is listed as
      waiting exactly when the quota is spent and it is queued for a job that shares it,
      with no retry time ahead, not waiting for its function, and below its job's
      concurrency limit. */
  lemma WaitingExactly(s: MemoryState, status: RateStatus, jobId: string, r: Id, now: Millis)
    requires Inv(s) && StatusFrom(s, status, jobId, now)
    ensures var job := s.jobs[jobId];
      && ParseRateLimitSpec(job.rateLimitSpec.value).Ok?
      && var spec := ParseRateLimitSpec(job.rateLimitSpec.value).value;
         && status.limit == spec.limit && status.windowMs == spec.windowMs
         && status.recentStarts == |StartsOnQuota(s, job, spec, now - spec.windowMs)|
         && (r in status.waiting <==>
               && status.recentStarts >= spec.limit
               && r in s.runs && s.runs[r].status.Queued? && s.runs[r].jobId in s.jobs
               && var run, other := s.runs[r], s.jobs[s.runs[r].jobId];
                  && SharesQuota(job, spec, other)
                  && (run.retryAfter.Some? ==> run.retryAfter.value <= now)
                  && run.failureClass != Some(BlockedByDownstream)
                  && (other.concurrencyLimit.Some? ==> |ActiveAttempts(s, run.jobId)| < other.concurrencyLimit.value))
  {
    hide RunsOk, AttemptsOk, LeasesOk, Numbered, HealthKeyed, Load, StartsOnQuota, ActiveAttempts, ActiveRunsBelow,
      ParseRateLimitSpec, ScopeKey;
    InvKnowsIds(s);
    var job := s.jobs[jobId];
    var spec := JobSpec(job).value;
    StartsAreLoad(s, job, spec, now - spec.windowMs);
    if r in s.runs {
      ActiveRunsAreCounted(s, s.runs[r].jobId, s.ids + 1);
      LoadIsBelowAll(s, JobRunning(s.runs[r].jobId));
      LoadsCountWhatIsInUse(s, "", s.runs[r].jobId);
    }
  }

  lemma LoadIsBelowAll(s: MemoryState, m: Measure)
    ensures Load(s, m) == LoadBelow(s, m, s.ids + 1)
  {}

  // ----- When two scopes share a key -----

  /** What a pool's key puts in front of the pool. */
  function PoolHead(projectId: string): string { "pool:" + projectId + ":" }

  /** Two jobs are taken for one scope exactly when they are the same job, or the pools of
      projects one of whose heads begins with the other's, and the rest of the longer head
      stands at the front of the other pool. The scope seen second is then not listed. */
  lemma ScopeKeysMeetExactly(job: Job, spec: RateLimitSpec, job': Job, spec': RateLimitSpec)
    ensures ScopeKey(job, spec) == ScopeKey(job', spec') <==>
      match (spec.pool, spec'.pool)
      case (None, None) => job.id == job'.id
      case (Some(pool), Some(pool')) =>
        var head, head' := PoolHead(job.projectId), PoolHead(job'.projectId);
        || (head <= head' && pool == head'[|head|..] + pool')
        || (head' <= head && pool' == head[|head'|..] + pool)
      case _ => false
  {
    match (spec.pool, spec'.pool)
    case (Some(pool), Some(pool')) =>
      var head, head' := PoolHead(job.projectId), PoolHead(job'.projectId);
      assert ScopeKey(job, spec) == head + pool && ScopeKey(job', spec') == head' + pool';
      PrefixesMeet(head, pool, head', pool');
      PrefixesMeet(head', pool', head, pool);
    case (None, None) =>
      assert ScopeKey(job, spec)[4..] == job.id && ScopeKey(job', spec')[4..] == job'.id;
    case (Some(_), None) =>
      assert ScopeKey(job, spec)[0] == 'p' && ScopeKey(job', spec')[0] == 'j';
    case (None, Some(_)) =>
      assert ScopeKey(job, spec)[0] == 'j' && ScopeKey(job', spec')[0] == 'p';
  }

  /** Without colons in project ids a key stands for one scope. */
  lemma KeysNameScopes(job: Job, spec: RateLimitSpec, job': Job, spec': RateLimitSpec)
    requires ':' !in job.projectId && ':' !in job'.projectId
    ensures ScopeKey(job, spec) == ScopeKey(job', spec') <==> ScopeOf(job, spec) == ScopeOf(job', spec')
  {
    ScopeKeysMeetExactly(job, spec, job', spec');
    var head, head' := PoolHead(job.projectId), PoolHead(job'.projectId);
    if head <= head' {
      ColonFreePoolHeads(job.projectId, job'.projectId);
    } else if head' <= head {
      ColonFreePoolHeads(job'.projectId, job.projectId);
    }
  }

  lemma ColonFreePoolHeads(p: string, p': string)
    requires ':' !in p && ':' !in p' && PoolHead(p) <= PoolHead(p')
    ensures p == p'
  {
    var h, h' := PoolHead(p), PoolHead(p');
    assert h[|h| - 1] == ':' == h'[|h| - 1];
    assert forall i :: 0 <= i < |p'| ==> h'[5 + i] == p'[i];
    assert |h| == |h'|;
    assert h[5..|h| - 1] == p && h'[5..|h| - 1] == p';
  }

  // ----- The reason given -----

  datatype WaitingReason = FunctionHealthReason | DelayReason | RetryDelayReason | ConcurrencyReason | RateLimitReason

  /** `derive_waiting_reason`, from the run, its job's concurrency status and whether it
      is among the runs waiting on a rate limit. */
  function DeriveWaitingReason(run: Run, active: nat, limit: Option<nat>, rateWaiting: bool): Option<WaitingReason> {
    if !run.status.Queued? then None
    else if run.failureClass == Some(BlockedByDownstream) then Some(FunctionHealthReason)
    else if run.retryAfter.Some? then
      if run.attemptCount == 0 then Some(DelayReason) else Some(RetryDelayReason)
    else if limit.Some? && active >= limit.value then Some(ConcurrencyReason)
    else if rateWaiting then Some(RateLimitReason)
    else None
  }

  /** Each reason over the fields: one at most applies, and an earlier one hides a later. */
  lemma ReasonsExactly(run: Run, active: nat, limit: Option<nat>, rateWaiting: bool)
    ensures var reason, free := DeriveWaitingReason(run, active, limit, rateWaiting),
                run.status.Queued? && run.failureClass != Some(BlockedByDownstream);
      && (reason == Some(FunctionHealthReason) <==> run.status.Queued? && run.failureClass == Some(BlockedByDownstream))
      && (reason == Some(DelayReason) <==> free && run.retryAfter.Some? && run.attemptCount == 0)
      && (reason == Some(RetryDelayReason) <==> free && run.retryAfter.Some? && run.attemptCount > 0)
      && (reason == Some(ConcurrencyReason) <==> free && run.retryAfter.None? && limit.Some? && active >= limit.value)
      && (reason == Some(RateLimitReason) <==>
            free && run.retryAfter.None? && (limit.Some? ==> active < limit.value) && rateWaiting)
  {}

  /** A run whose scope has no start left is passed over, whichever check comes first. */
  lemma FullScopeIsSkipped(s: MemoryState, run: Run, runner: Runner, now: Millis)
    requires Keyed(s) && run.jobId in s.jobs && JobSpec(s.jobs[run.jobId]).Some?
    requires var job := s.jobs[run.jobId];
      var spec := JobSpec(job).value;
      Load(s, StartsSince(ScopeOf(job, spec), now - spec.windowMs)) >= spec.limit
    ensures Judge(s, run, runner, now).Skipped?
  {
    hide Load, ScopeOf, OnHold;
  }

  /** What it takes to be listed as waiting. */
  lemma WaiterInFullScope(s: MemoryState, status: RateStatus, jobId: string, r: Id, now: Millis)
    requires StatusFrom(s, status, jobId, now) && r in status.waiting
    ensures r in s.runs && s.runs[r].jobId in s.jobs
    ensures var job := s.jobs[jobId];
      var spec := JobSpec(job).value;
      && InScope(s.jobs[s.runs[r].jobId], ScopeOf(job, spec))
      && Load(s, StartsSince(ScopeOf(job, spec), now - spec.windowMs)) >= spec.limit
  {
    hide Load, ConcurrencyOpen, ScopeKey;
  }

  /** Whatever runner asks, the lease step passes over a run that a rate-limit status
      lists as waiting. */
  lemma RateWaiterIsRefused(s: MemoryState, status: RateStatus, jobId: string, r: Id, runner: Runner, now: Millis)
    requires Inv(s) && PoolsAgree(s)
    requires StatusFrom(s, status, jobId, now) && r in status.waiting
    ensures r in s.runs && Judge(s, s.runs[r], runner, now).Skipped?
  {
    hide StatusFrom, StatusOf, Judge, Load, InScope, ScopeOf, JobSpec, RunsOk, AttemptsOk, LeasesOk, Numbered, HealthKeyed;
    WaiterInFullScope(s, status, jobId, r, now);
    var run := s.runs[r];
    StatusNamesJob(s, status, jobId, now);
    ScopeMatesAgree(s, s.jobs[jobId], run.jobId);
    FullScopeIsSkipped(s, run, runner, now);
  }

  lemma StatusNamesJob(s: MemoryState, status: RateStatus, jobId: string, now: Millis)
    requires StatusFrom(s, status, jobId, now)
    ensures jobId in s.jobs && JobSpec(s.jobs[jobId]).Some?
  {}

  /** In a just-recovered state, every queued run that the service reports as waiting on
      concurrency or on a rate limit is one that the lease step, run at that instant for
      any runner, would refuse. */
  lemma ReportedWaitersAreRefused(s: MemoryState, statuses: seq<RateStatus>, r: Id, runner: Runner, now: Millis)
    requires Inv(s) && PoolsAgree(s) && Recover(s, now) == s && r in s.runs
    requires forall i :: 0 <= i < |statuses| ==> Genuine(s, statuses[i], now)
    requires var run, rateWaiting := s.runs[r], exists i :: 0 <= i < |statuses| && r in statuses[i].waiting;
      run.jobId in s.jobs &&
      DeriveWaitingReason(run, |ActiveRuns(s, run.jobId)|, s.jobs[run.jobId].concurrencyLimit, rateWaiting)
        in {Some(ConcurrencyReason), Some(RateLimitReason)}
    ensures Judge(Recover(s, now), Recover(s, now).runs[r], runner, now).Skipped?
  {
    var run := s.runs[r];
    var job := s.jobs[run.jobId];
    ActiveRunsAreCounted(s, run.jobId, s.ids + 1);
    if !(job.concurrencyLimit.Some? && |ActiveRuns(s, run.jobId)| >= job.concurrencyLimit.value) {
      var i :| 0 <= i < |statuses| && r in statuses[i].waiting;
      var j :| StatusFrom(s, statuses[i], j, now);
      RateWaiterIsRefused(s, statuses[i], j, r, runner, now);
    }
  }
}
