/**
 Whole runs of the store: any sequence of enabled steps from the empty store under a
 clock that never goes back.
 */
module Traces {
  import opened Domain
  import opened Schedule
  import opened Transitions
  import opened Invariant
  import opened Steps

  datatype Trace = Trace(zones: ZoneDb, states: seq<MemoryState>, events: seq<Event>)

  ghost predicate IsTrace(tr: Trace) {
    && |tr.states| == |tr.events| + 1
    && tr.states[0] == EMPTY
    && (forall i :: 0 <= i < |tr.events| ==> StepAt(tr, i))
    && (forall i, j :: 0 <= i <= j < |tr.events| ==> tr.events[i].now <= tr.events[j].now)
  }

  ghost predicate StepAt(tr: Trace, i: nat)
    requires i < |tr.events| && |tr.states| == |tr.events| + 1
  {
    && Enabled(tr.states[i], tr.events[i])
    && tr.states[i + 1] == Apply(tr.zones, tr.states[i], tr.events[i])
  }

  /** The invariant holds in every reachable state. */
  lemma {:induction false} ReachableStatesAreLinked(tr: Trace, i: nat)
    requires IsTrace(tr) && i < |tr.states|
    ensures Inv(tr.states[i]) && SpecsParse(tr.states[i])
  {
    if i == 0 {
      EmptyKeepsInv();
    } else {
      ReachableStatesAreLinked(tr, i - 1);
      assert StepAt(tr, i - 1);
      StepKeepsInv(tr.zones, tr.states[i - 1], tr.events[i - 1]);
      StepKeepsSpecs(tr.zones, tr.states[i - 1], tr.events[i - 1]);
    }
  }

  /** In every reachable state a run is running exactly when it has a running attempt; it
      never has two; and a running attempt holds an open lease that points back at it and
      names the same runner. */
  lemma NoWorkIsOrphaned(tr: Trace, i: nat, r: Id)
    requires IsTrace(tr) && i < |tr.states| && r in tr.states[i].runs
    ensures var s := tr.states[i];
      && (s.runs[r].status.Running? <==> exists a :: a in s.attempts && RunsFor(s.attempts[a], r))
      && (forall a, b :: a in s.attempts && b in s.attempts && RunsFor(s.attempts[a], r) && RunsFor(s.attempts[b], r) ==> a == b)
      && (forall a :: a in s.attempts && RunsFor(s.attempts[a], r) ==>
            && s.attempts[a].leaseId.Some? && s.attempts[a].leaseId.value in s.leases
            && var lease := s.leases[s.attempts[a].leaseId.value];
               lease.attemptId == a && lease.Open() && s.attempts[a].runnerId == Some(lease.runnerId))
  {
    ReachableStatesAreLinked(tr, i);
    RunningRunsAreLeased(tr.states[i], r);
  }

  /** In every reachable state the attempts of a run carry the numbers 1 .. attemptCount,
      each exactly once, and there are never more than maxAttempts of them. */
  lemma AttemptsAreNumbered(tr: Trace, i: nat, r: Id, k: nat)
    requires IsTrace(tr) && i < |tr.states| && r in tr.states[i].runs
    ensures var s := tr.states[i];
      && s.runs[r].attemptCount <= s.runs[r].maxAttempts
      && (HasNumber(s, r, k) <==> 1 <= k <= s.runs[r].attemptCount)
      && (forall a, b :: (a in s.attempts && b in s.attempts && s.attempts[a].runId == r && SameSlot(s.attempts[a], s.attempts[b]))
            ==> a == b)
  {
    ReachableStatesAreLinked(tr, i);
    var s := tr.states[i];
    assert RunOk(s, s.runs[r]);
    if HasNumber(s, r, k) {
      var a :| a in s.attempts && s.attempts[a].runId == r && s.attempts[a].number == k;
      assert AttemptOk(s, s.attempts[a]);
    }
  }

  lemma {:induction false} RecordsEvolve(tr: Trace, i: nat, j: nat)
    requires IsTrace(tr) && i <= j < |tr.states|
    ensures Evolves(tr.states[i], tr.states[j])
    decreases j
  {
    if i == j {
      SelfEvolves(tr.states[i]);
    } else {
      RecordsEvolve(tr, i, j - 1);
      OneStep(tr, j - 1);
      EvolvesTransitive(tr.states[i], tr.states[j - 1], tr.states[j]);
    }
  }

  lemma OneStep(tr: Trace, i: nat)
    requires IsTrace(tr) && i < |tr.events|
    ensures Inv(tr.states[i]) && Inv(tr.states[i + 1]) && SpecsParse(tr.states[i])
    ensures StepAt(tr, i)
    ensures Evolves(tr.states[i], tr.states[i + 1]) && NewRecords(tr.states[i], tr.states[i + 1], tr.events[i].now)
  {
    ReachableStatesAreLinked(tr, i);
    ReachableStatesAreLinked(tr, i + 1);
    assert StepAt(tr, i);
    StepEvolves(tr.zones, tr.states[i], tr.events[i]);
  }

  // ----- Progress of a run -----

  predicate ProgressChanged(tr: Trace, r: Id, i: nat)
    requires i + 1 < |tr.states|
  {
    r in tr.states[i].runs && r in tr.states[i + 1].runs
    && !SameProgress(tr.states[i].runs[r], tr.states[i + 1].runs[r])
  }

  /** How many of the steps i .. j - 1 changed the run's status or attempt count. */
  function ProgressChanges(tr: Trace, r: Id, i: nat, j: nat): nat
    requires i <= j < |tr.states|
    decreases j
  {
    if i == j then 0
    else ProgressChanges(tr, r, i, j - 1) + if ProgressChanged(tr, r, j - 1) then 1 else 0
  }

  lemma RankRange(s: MemoryState, r: Id)
    requires Inv(s) && r in s.runs
    ensures 0 <= Rank(s.runs[r]) <= 2 * s.runs[r].maxAttempts
  {
    assert RunOk(s, s.runs[r]);
  }

  /** A run's status changes at most 2 * maxAttempts times over its whole life, and once
      it is terminal nothing about it changes again. */
  lemma {:induction false} ProgressIsBounded(tr: Trace, r: Id, i: nat, j: nat)
    requires IsTrace(tr) && i <= j < |tr.states| && r in tr.states[i].runs
    ensures r in tr.states[j].runs
    ensures ProgressChanges(tr, r, i, j) <= Rank(tr.states[i].runs[r]) - Rank(tr.states[j].runs[r])
    ensures ProgressChanges(tr, r, i, j) <= 2 * tr.states[i].runs[r].maxAttempts
    ensures tr.states[i].runs[r].status.Terminal() ==> tr.states[j].runs[r] == tr.states[i].runs[r]
    decreases j
  {
    hide Apply, Enabled, Inv;
    ReachableStatesAreLinked(tr, i);
    ReachableStatesAreLinked(tr, j);
    RankRange(tr.states[i], r);
    if i < j {
      ProgressIsBounded(tr, r, i, j - 1);
      OneStep(tr, j - 1);
      assert RunEvolves(tr.states[j - 1].runs[r], tr.states[j].runs[r]);
    }
    RankRange(tr.states[j], r);
  }

  // ----- An attempt finishes once -----

  /** Step `i` is where the attempt finishes, by completion or by recovery. */
  predicate FinishesAt(tr: Trace, a: Id, i: nat)
    requires i + 1 < |tr.states|
  {
    && a in tr.states[i].attempts && tr.states[i].attempts[a].finishedAt.None?
    && a in tr.states[i + 1].attempts && tr.states[i + 1].attempts[a].finishedAt.Some?
  }

  lemma FinishesOnce(tr: Trace, a: Id, i: nat, j: nat)
    requires IsTrace(tr) && i < |tr.events| && j < |tr.events|
    requires FinishesAt(tr, a, i) && FinishesAt(tr, a, j)
    ensures i == j
  {
    if i < j {
      StaysFinished(tr, a, i, j);
    } else if j < i {
      StaysFinished(tr, a, j, i);
    }
  }

  lemma StaysFinished(tr: Trace, a: Id, i: nat, j: nat)
    requires IsTrace(tr) && i < j < |tr.states| && FinishesAt(tr, a, i)
    ensures a in tr.states[j].attempts && tr.states[j].attempts[a] == tr.states[i + 1].attempts[a]
  {
    RecordsEvolve(tr, i + 1, j);
    assert AttemptEvolves(tr.states[i + 1].attempts[a], tr.states[j].attempts[a]);
  }

  /** The attempt's lease has not expired at `now`. */
  predicate Unexpired(s: MemoryState, attempt: Attempt, now: Millis) {
    attempt.leaseId.Some? && attempt.leaseId.value in s.leases && now < s.leases[attempt.leaseId.value].expiresAt
  }

  /** The attempt that a step completes with success, if it does. */
  function CompletedAt(tr: Trace, i: nat): Option<Id>
    requires i < |tr.events| && i < |tr.states|
  {
    match tr.events[i].step
    case CompleteStep(p, hash) =>
      if Complete(tr.states[i], p, hash, tr.events[i].now).result.Ok? then Some(p.attemptId) else None
    case _ => None
  }

  /** `complete_attempt` succeeds exactly when the attempt is running on the caller's
      lease, the lease has not expired, and a requested cancellation is honoured; and
      whenever it answers an error the store is as before. */
  lemma CompletionIsFenced(s: MemoryState, p: CompleteParams, hash: nat, now: Millis)
    requires Inv(s) && SpecsParse(s) && p.status.Terminal()
    ensures var o := Complete(s, p, hash, now);
      && (o.result.Ok? <==>
            && p.attemptId in s.attempts
            && var attempt := s.attempts[p.attemptId];
               && attempt.status.AttemptRunning?
               && (attempt.cancelRequestedAt.Some? ==> p.status.AttemptCanceled?)
               && attempt.runnerId == Some(p.runnerId)
               && Unexpired(s, attempt, now))
      && (o.result.Err? ==> o.next == s)
      && (o.result.Ok? ==> p.attemptId in o.next.attempts && o.next.attempts[p.attemptId].finishedAt == Some(now))
  {
    if p.attemptId in s.attempts {
      assert AttemptOk(s, s.attempts[p.attemptId]);
    }
    if Preflight(s, p, now).None? {
      CompleteWrites(s, p, hash, now);
    }
  }

  /** Over any run of the store an attempt is completed at most once, and never after a
      step (a recovery, say) has already finished it. */
  lemma CompletedAtMostOnce(tr: Trace, a: Id, i: nat, j: nat)
    requires IsTrace(tr) && i < |tr.events| && j < |tr.events|
    requires CompletedAt(tr, i) == Some(a)
    ensures FinishesAt(tr, a, i)
    ensures CompletedAt(tr, j) == Some(a) ==> i == j
    ensures FinishesAt(tr, a, j) ==> i == j
  {
    CompletionFinishes(tr, a, i);
    if CompletedAt(tr, j) == Some(a) {
      CompletionFinishes(tr, a, j);
    }
    if FinishesAt(tr, a, j) {
      FinishesOnce(tr, a, i, j);
    }
  }

  lemma CompletionFinishes(tr: Trace, a: Id, i: nat)
    requires IsTrace(tr) && i < |tr.events| && CompletedAt(tr, i) == Some(a)
    ensures FinishesAt(tr, a, i)
  {
    OneStep(tr, i);
    var e := tr.events[i];
    CompletionIsFenced(tr.states[i], e.step.complete, e.step.hash, e.now);
    assert AttemptOk(tr.states[i], tr.states[i].attempts[a]);
  }

  // ----- Start times -----

  /** No attempt starts in the future of the clock, and start times never change. */
  lemma {:induction false} StartsAreInThePast(tr: Trace, i: nat)
    requires IsTrace(tr) && 0 < i < |tr.states|
    ensures forall a :: a in tr.states[i].attempts ==> tr.states[i].attempts[a].startedAt <= tr.events[i - 1].now
  {
    OneStep(tr, i - 1);
    if i > 1 {
      StartsAreInThePast(tr, i - 1);
    }
    forall a | a in tr.states[i].attempts
      ensures tr.states[i].attempts[a].startedAt <= tr.events[i - 1].now
    {
      if a in tr.states[i - 1].attempts {
        assert AttemptEvolves(tr.states[i - 1].attempts[a], tr.states[i].attempts[a]);
      }
    }
  }
}
