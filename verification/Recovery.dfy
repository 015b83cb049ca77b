/**
 What recovery takes and what it leaves alone, and why a runner that keeps renewing in
 time never loses its attempt.
 */
module Recovery {
  import opened Domain
  import opened Transitions
  import opened Invariant

  predicate AttemptLost(s: MemoryState, a: Id, now: Millis) { a in s.attempts && Lost(s, s.attempts[a], now) }

  predicate RunLost(s: MemoryState, r: Id, now: Millis) {
    exists a :: a in s.attempts && s.attempts[a].runId == r && Lost(s, s.attempts[a], now)
  }

  /** What recovery makes of a lost attempt, its lease and its run. */
  predicate TakenAway(s: MemoryState, t: MemoryState, a: Id, now: Millis)
    requires a in s.attempts && a in t.attempts
  {
    var attempt := s.attempts[a];
    && t.attempts[a].status.AttemptFailed? && t.attempts[a].finishedAt == Some(now)
    && attempt.leaseId.Some? && attempt.leaseId.value in t.leases
    && t.leases[attempt.leaseId.value].releasedAt == Some(now)
    && attempt.runId in s.runs && attempt.runId in t.runs
    && var run := s.runs[attempt.runId];
       t.runs[attempt.runId].status == if run.attemptCount < run.maxAttempts then Queued else Failed
  }

  /** Recovery fails exactly the lost attempts, releases exactly their leases, and
      requeues or fails exactly their runs; every other record is untouched. */
  lemma RecoveryTakesExactlyTheLost(s: MemoryState, now: Millis)
    requires Inv(s)
    ensures var t := Recover(s, now);
      && t.attempts.Keys == s.attempts.Keys && t.leases.Keys == s.leases.Keys && t.runs.Keys == s.runs.Keys
      && t == s.(attempts := t.attempts, leases := t.leases, runs := t.runs)
      && (forall a :: a in s.attempts ==> (t.attempts[a] != s.attempts[a] <==> AttemptLost(s, a, now)))
      && (forall a :: a in s.attempts && AttemptLost(s, a, now) ==> TakenAway(s, t, a, now))
      && (forall l :: l in s.leases ==> (t.leases[l] != s.leases[l] <==> AttemptLost(s, s.leases[l].attemptId, now)))
      && (forall r :: r in s.runs ==> (t.runs[r] != s.runs[r] <==> RunLost(s, r, now)))
  {
    var t := Recover(s, now);
    forall a | a in s.attempts
      ensures t.attempts[a] != s.attempts[a] <==> AttemptLost(s, a, now)
      ensures AttemptLost(s, a, now) ==> TakenAway(s, t, a, now)
    {
      TakenTogether(s, LostAttempts(s, now), a);
    }
    forall l | l in s.leases
      ensures t.leases[l] != s.leases[l] <==> AttemptLost(s, s.leases[l].attemptId, now)
    {
      assert LeaseOk(s, s.leases[l]);
      TakenTogether(s, LostAttempts(s, now), s.leases[l].attemptId);
    }
    forall r | r in s.runs
      ensures t.runs[r] != s.runs[r] <==> RunLost(s, r, now)
    {
      LostRunChanges(s, r, now);
    }
  }

  lemma LostRunChanges(s: MemoryState, r: Id, now: Millis)
    requires Inv(s) && r in s.runs
    ensures RunTaken(s, LostAttempts(s, now), r) <==> RunLost(s, r, now)
    ensures RunLost(s, r, now) ==> s.runs[r].status.Running?
  {
    if a :| a in s.attempts && s.attempts[a].runId == r && Lost(s, s.attempts[a], now) {
      assert a in LostAttempts(s, now);
      assert AttemptOk(s, s.attempts[a]);
    }
  }

  lemma NothingLostAfterRecovery(s: MemoryState, now: Millis)
    requires Inv(s)
    ensures LostAttempts(Recover(s, now), now) == {}
  {
    var t := Recover(s, now);
    forall a | a in t.attempts
      ensures !Lost(t, t.attempts[a], now)
    {
      TakenTogether(s, LostAttempts(s, now), a);
    }
  }

  lemma NothingLostNothingTaken(s: MemoryState, now: Millis)
    requires LostAttempts(s, now) == {}
    ensures Recover(s, now) == s
  {
    var t := Recover(s, now);
    assert t.attempts == s.attempts && t.leases == s.leases && t.runs == s.runs;
  }

  /** Recovering again at the same time changes nothing. */
  lemma RecoveryIsIdempotent(s: MemoryState, now: Millis)
    requires Inv(s)
    ensures Recover(Recover(s, now), now) == Recover(s, now)
  {
    NothingLostAfterRecovery(s, now);
    NothingLostNothingTaken(Recover(s, now), now);
  }

  // ----- Recovery over the fields of leases and runners -----

  /** The running attempt's lease has time left and its runner, if it is registered, was
      heard from within its timeout. */
  predicate Alive(s: MemoryState, attempt: Attempt, now: Millis) {
    && attempt.leaseId.Some? && attempt.leaseId.value in s.leases
    && var lease := s.leases[attempt.leaseId.value];
       && lease.expiresAt > now
       && (lease.runnerId in s.runners ==>
             var runner := s.runners[lease.runnerId];
             SatAdd(runner.lastHeartbeatAt, runner.heartbeatTimeoutSecs * 1000) > now)
  }

  lemma RunningIsLostOrAlive(s: MemoryState, a: Id, now: Millis)
    requires Inv(s) && a in s.attempts && s.attempts[a].status.AttemptRunning?
    ensures a in LostAttempts(s, now) <==> !Alive(s, s.attempts[a], now)
  {
    assert AttemptOk(s, s.attempts[a]);
  }

  /** The attempt, its lease and its run are as they were. */
  predicate LeftAlone(s: MemoryState, t: MemoryState, a: Id)
    requires a in s.attempts && AttemptOk(s, s.attempts[a])
  {
    var attempt := s.attempts[a];
    && a in t.attempts && t.attempts[a] == attempt
    && attempt.leaseId.value in t.leases && t.leases[attempt.leaseId.value] == s.leases[attempt.leaseId.value]
    && attempt.runId in t.runs && t.runs[attempt.runId] == s.runs[attempt.runId]
  }

  /** The attempt has failed through no fault of its own, its lease is released, and its
      run waits for another attempt at once or, out of attempts, has failed too. */
  predicate FailedAsLost(s: MemoryState, t: MemoryState, a: Id, now: Millis)
    requires a in s.attempts && AttemptOk(s, s.attempts[a])
  {
    var attempt, run := s.attempts[a], s.runs[s.attempts[a].runId];
    && a in t.attempts && attempt.leaseId.value in t.leases && attempt.runId in t.runs
    && t.attempts[a] == attempt.(status := AttemptFailed, failureClass := Some(GumInternalError), finishedAt := Some(now))
    && t.leases[attempt.leaseId.value] == s.leases[attempt.leaseId.value].(releasedAt := Some(now))
    && var after := t.runs[attempt.runId];
       && after == run.(status := after.status, failureClass := after.failureClass, retryAfter := None, waitingFor := None)
       && (if run.attemptCount < run.maxAttempts then after.status.Queued? && after.failureClass == None
           else after.status.Failed? && after.failureClass == Some(GumInternalError))
  }

  /** Recovery sorts the running attempts by the clock: those whose lease has time left and
      whose runner is not stale are left alone, all others fail; so every attempt that
      still runs afterwards is alive, and finished ones are not touched. */
  lemma RecoverySortsTheRunning(s: MemoryState, now: Millis)
    requires Inv(s)
    ensures var t := Recover(s, now);
      && t.attempts.Keys == s.attempts.Keys && t.runners == s.runners
      && (forall a :: a in s.attempts ==>
            && AttemptOk(s, s.attempts[a])
            && if !s.attempts[a].status.AttemptRunning? then t.attempts[a] == s.attempts[a]
               else if Alive(s, s.attempts[a], now) then LeftAlone(s, t, a)
               else FailedAsLost(s, t, a, now))
      && (forall a :: a in t.attempts && t.attempts[a].status.AttemptRunning? ==> Alive(t, t.attempts[a], now))
  {
    hide Lost, LostAttempts, RunsOk, LeasesOk, Numbered;
    var t, lost := Recover(s, now), LostAttempts(s, now);
    LostRun(s, now);
    forall a | a in s.attempts
      ensures AttemptOk(s, s.attempts[a])
      ensures !s.attempts[a].status.AttemptRunning? ==> t.attempts[a] == s.attempts[a]
      ensures s.attempts[a].status.AttemptRunning? && Alive(s, s.attempts[a], now) ==> LeftAlone(s, t, a)
      ensures s.attempts[a].status.AttemptRunning? && !Alive(s, s.attempts[a], now) ==> FailedAsLost(s, t, a, now)
    {
      TakenTogether(s, lost, a);
      if s.attempts[a].status.AttemptRunning? { RunningIsLostOrAlive(s, a, now); }
    }
  }

  lemma LostRun(s: MemoryState, now: Millis)
    ensures forall a :: a in LostAttempts(s, now) ==> a in s.attempts && s.attempts[a].status.AttemptRunning?
  {}
}
