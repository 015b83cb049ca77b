/**
 Run keys: asking again with the same key inside the retention time finds the same run.
 */
module Dedupe {
  import opened Domain
  import opened Text
  import opened RetryPolicy
  import opened Schedule
  import opened Transitions
  import opened Invariant
  import opened Steps
  import opened Traces

  // ----- The scope string -----

  /** What a project and a job put in front of every key. */
  function ScopeHead(p: string, j: string): string { p + ":" + j + ":" }

  lemma ScopeIsHeadAndKey(p: string, j: string, k: string)
    ensures KeyScope(p, j, k) == ScopeHead(p, j) + k
  {}

  /** Two callers share a scope exactly when one head begins with the other and the rest
      of the longer head stands at the front of the other caller's key. */
  lemma ScopesMeetExactly(p: string, j: string, k: string, p': string, j': string, k': string)
    ensures KeyScope(p, j, k) == KeyScope(p', j', k') <==>
      || (ScopeHead(p, j) <= ScopeHead(p', j') && k == ScopeHead(p', j')[|ScopeHead(p, j)|..] + k')
      || (ScopeHead(p', j') <= ScopeHead(p, j) && k' == ScopeHead(p, j)[|ScopeHead(p', j')|..] + k)
  {
    ScopeIsHeadAndKey(p, j, k);
    ScopeIsHeadAndKey(p', j', k');
    PrefixesMeet(ScopeHead(p, j), k, ScopeHead(p', j'), k');
    PrefixesMeet(ScopeHead(p', j'), k', ScopeHead(p, j), k);
  }

  /** Some keys of the two callers share a scope exactly when one head begins with the
      other; which a caller can see from the ids alone. */
  lemma ScopesCanCollideExactly(p: string, j: string, p': string, j': string)
    ensures (exists k, k' :: KeyScope(p, j, k) == KeyScope(p', j', k')) <==>
      ScopeHead(p, j) <= ScopeHead(p', j') || ScopeHead(p', j') <= ScopeHead(p, j)
  {
    var h, h' := ScopeHead(p, j), ScopeHead(p', j');
    if h <= h' {
      ScopesMeetExactly(p, j, h'[|h|..] + "", p', j', "");
    } else if h' <= h {
      ScopesMeetExactly(p, j, "", p', j', h[|h'|..] + "");
    }
    if k, k' :| KeyScope(p, j, k) == KeyScope(p', j', k') {
      ScopesMeetExactly(p, j, k, p', j', k');
    }
  }

  /** Without colons in the ids one head begins with another only when it is the same. */
  lemma ColonFreeHeads(p: string, j: string, p': string, j': string)
    requires ':' !in p && ':' !in j && ':' !in p' && ':' !in j'
    requires ScopeHead(p, j) <= ScopeHead(p', j')
    ensures p == p' && j == j'
  {
    var h, h' := ScopeHead(p, j), ScopeHead(p', j');
    assert h[|p|] == ':' && h'[|p'|] == ':';
    assert forall i :: 0 <= i < |p| ==> h[i] == p[i];
    assert forall i :: 0 <= i < |p'| ==> h'[i] == p'[i];
    assert |p| == |p'|;
    assert h[..|p|] == p && h'[..|p|] == p';
    assert h[|h| - 1] == ':' && h'[|h'| - 1] == ':';
    assert forall i :: 0 <= i < |j'| ==> h'[|p| + 1 + i] == j'[i];
    assert |h| == |h'|;
    assert h == h';
    assert h[|p| + 1..|h| - 1] == j && h'[|p| + 1..|h| - 1] == j';
  }

  /** With no colon in project and job ids, two callers share a scope exactly when
      project, job and key agree; the key itself may hold colons. */
  lemma ScopeIsInjective(p: string, j: string, k: string, p': string, j': string, k': string)
    requires ':' !in p && ':' !in j && ':' !in p' && ':' !in j'
    ensures KeyScope(p, j, k) == KeyScope(p', j', k') <==> p == p' && j == j' && k == k'
  {
    ScopesMeetExactly(p, j, k, p', j', k');
    if ScopeHead(p, j) <= ScopeHead(p', j') {
      ColonFreeHeads(p, j, p', j');
    } else if ScopeHead(p', j') <= ScopeHead(p, j) {
      ColonFreeHeads(p', j', p, j);
    }
  }

  /** With a colon in a job id two different callers collide, key by key. */
  lemma ScopesCanCollide(p: string, j: string, mid: string, k: string)
    ensures KeyScope(p, mid + ":" + j, k) == KeyScope(p + ":" + mid, j, k)
  {
    assert ScopeHead(p, mid + ":" + j) == ScopeHead(p + ":" + mid, j);
    ScopesMeetExactly(p, mid + ":" + j, k, p + ":" + mid, j, k);
  }

  // ----- Keys over a run of the store -----

  /** Step `i` creates a run for the key scope. */
  predicate CreatesKeyed(tr: Trace, i: nat, scope: string)
    requires i < |tr.events| && i < |tr.states|
  {
    && tr.events[i].step.EnqueueStep?
    && var p := tr.events[i].step.enqueue;
       && p.key.Some? && KeyScope(p.projectId, p.jobId, p.key.value) == scope
       && var o := Enqueue(tr.states[i], p, tr.events[i].now);
          o.result.Ok? && !o.result.value.deduped
  }

  lemma OnlyEnqueueTouchesKeys(zones: ZoneDb, s: MemoryState, e: Event)
    requires Inv(s) && !e.step.EnqueueStep?
    ensures Apply(zones, s, e).runKeys == s.runKeys
  {
    if !e.step.HeartbeatStep? && !e.step.RegisterRunnerStep? {
      StepIsQuiet(zones, s, e);
    }
  }

  /** A key that has not expired is neither replaced nor dropped. */
  lemma UnexpiredKeyStays(zones: ZoneDb, s: MemoryState, e: Event, scope: string)
    requires Inv(s) && scope in s.runKeys && s.runKeys[scope].runId in s.runs && e.now < s.runKeys[scope].expiresAt
    ensures var t := Apply(zones, s, e); scope in t.runKeys && t.runKeys[scope] == s.runKeys[scope]
  {
    hide Complete, LeaseNext, Cancel, Tick, Recover, Enqueue, Replay, RegisterDeploy, RenewLeases, Inv;
    if e.step.EnqueueStep? {
      EnqueueKeepsUnexpired(s, e.step.enqueue, e.now, scope);
    } else {
      OnlyEnqueueTouchesKeys(zones, s, e);
    }
  }

  lemma EnqueueKeepsUnexpired(s: MemoryState, p: EnqueueParams, now: Millis, scope: string)
    requires scope in s.runKeys && s.runKeys[scope].runId in s.runs && now < s.runKeys[scope].expiresAt
    ensures var t := Enqueue(s, p, now).next; scope in t.runKeys && t.runKeys[scope] == s.runKeys[scope]
  {
    hide KeyScope;
  }

  /** From the enqueue that created a keyed run until its retention time has passed the
      key stands for that run. */
  lemma {:induction false} KeyIsRetained(tr: Trace, i: nat, m: nat, scope: string)
    requires IsTrace(tr) && i < m < |tr.states| && CreatesKeyed(tr, i, scope)
    requires tr.events[m - 1].now < tr.events[i].now + KEY_RETENTION_MS
    ensures var id := tr.states[i].ids + 1;
      && scope in tr.states[m].runKeys && id in tr.states[m].runs
      && tr.states[m].runKeys[scope] == RunKey(id, tr.events[i].now, tr.events[i].now + KEY_RETENTION_MS)
    decreases m
  {
    hide KeyScope, Inv;
    assert StepAt(tr, i);
    if m > i + 1 {
      KeyIsRetained(tr, i, m - 1, scope);
      OneStep(tr, m - 1);
      UnexpiredKeyStays(tr.zones, tr.states[m - 1], tr.events[m - 1], scope);
    }
  }

  /** Two runs created for one key scope are at least the retention time apart. */
  lemma CreationsAreSpaced(tr: Trace, i: nat, m: nat, scope: string)
    requires IsTrace(tr) && i < m < |tr.events|
    requires CreatesKeyed(tr, i, scope) && CreatesKeyed(tr, m, scope)
    ensures tr.events[i].now + KEY_RETENTION_MS <= tr.events[m].now
  {
    if tr.events[m].now < tr.events[i].now + KEY_RETENTION_MS {
      assert tr.events[m - 1].now <= tr.events[m].now;
      KeyIsRetained(tr, i, m, scope);
    }
  }

  /** A caller who asks again for the same project, job and key within the retention time
      is turned away by the job checks or gets the very run created first. */
  lemma SameKeySameRun(tr: Trace, i: nat, m: nat, scope: string)
    requires IsTrace(tr) && i < m < |tr.events| && CreatesKeyed(tr, i, scope)
    requires tr.events[m].step.EnqueueStep?
    requires var p := tr.events[m].step.enqueue; p.key.Some? && KeyScope(p.projectId, p.jobId, p.key.value) == scope
    requires tr.events[m].now < tr.events[i].now + KEY_RETENTION_MS
    ensures var answer := Enqueue(tr.states[m], tr.events[m].step.enqueue, tr.events[m].now);
      && answer.next == tr.states[m]
      && (answer.result.Err? ==> answer.result.error in {JobNotFound, JobDisabled, JobMismatch})
      && (answer.result.Ok? ==> answer.result.value.deduped && answer.result.value.run.id == tr.states[i].ids + 1)
  {
    assert tr.events[m - 1].now <= tr.events[m].now;
    KeyIsRetained(tr, i, m, scope);
    ReachableStatesAreLinked(tr, m);
  }
}
