/**
 What the Postgres transactions go by and what they write, said over the fields of the
 records: the runs they hand out, the attempts they take for lost, and how reports,
 heartbeats and cancels come out, under every interleaving.
 */
module PgCalls {
  import opened Domain
  import opened RetryPolicy
  import opened Loads
  import opened Transitions
  import opened Invariant
  import opened Recovery
  import opened Outcomes
  import opened Eligibility
  import opened Requests
  import opened PgProtocol
  import opened PgSafety
  import opened PgCapacity

  // ----- What a lease goes by -----

  /** At that instant nothing in the candidate query stands against the run. */
  predicate MayStart(s: MemoryState, run: Run, now: Millis) {
    && run.status.Queued?
    && (run.retryAfter.Some? ==> run.retryAfter.value <= now)
    && run.jobId in s.jobs && s.jobs[run.jobId].enabled
    && (run.jobId in s.health && s.health[run.jobId].holdUntil.Some? ==> s.health[run.jobId].holdUntil.value <= now)
    && var limit := s.jobs[run.jobId].concurrencyLimit;
       limit.Some? ==> |ActiveAttempts(s, run.jobId)| < limit.value
  }

  lemma CandidatesMayStart(s: MemoryState, run: Run, now: Millis)
    requires AttemptIdsKnown(s)
    ensures IsCandidate(s, run, now) <==> MayStart(s, run, now)
  {
    hide Load, ActiveAttempts;
    LoadsCountWhatIsInUse(s, "", run.jobId);
  }

  predicate BeforeScan(tx: Tx)
    requires tx.Leasing?
  {
    tx.phase.Counting? || tx.phase.Counted?
  }

  /** What a leasing transaction has locked were candidates when its query started, and the
      run in hand suits the runner's class. */
  ghost predicate ScanIsFair(tx: Tx)
    requires tx.Leasing?
  {
    if BeforeScan(tx) then tx.seen == map[]
    else
      && (forall r {:trigger tx.seen[r]} :: r in tx.seen ==> IsCandidate(tx.snapshot, tx.seen[r], tx.asOf))
      && (tx.phase.ForRun() ==>
            && tx.phase.run.id in tx.seen && tx.seen[tx.phase.run.id] == tx.phase.run
            && (tx.phase.job.computeClass.Some? ==> tx.runner.computeClass == tx.phase.job.computeClass.value))
  }

  predicate HasScan(db: Db, id: TxId) { IsLeasing(db, id) && !BeforeScan(db.txs[id]) }

  predicate StartsScan(step: PgStep, id: TxId) { step.QueryCandidatesStep? && step.id == id }

  predicate SameScan(x: Tx, y: Tx)
    requires x.Leasing? && y.Leasing?
  {
    x.snapshot == y.snapshot && x.asOf == y.asOf
  }

  /** The steps that make up a scan. */
  predicate Scans(step: PgStep) {
    || step.BeginLeaseStep? || step.CountSlotsStep? || step.QueryCandidatesStep? || step.LockCandidateStep? || step.ReadJobStep?
    || step.CheckCpuStep? || step.CheckMemoryStep? || step.PassOverStep?
  }

  /** Other steps of a leasing transaction do not touch the scan. */
  lemma OtherStepsKeepScan(db: Db, step: PgStep, after: Db)
    requires PgNext(db, step, after) && step.Actor().Some? && IsLeasing(after, step.id) && !Scans(step)
    ensures IsLeasing(db, step.id) && after.txs[step.id] == db.txs[step.id]
  {
    hide Load, Lost, IsCandidate, AfterSignal, PgFinished, PgTaken, PgBeaten, PgCanceled, PgGrant, AfterGrant, AttemptPasses;
    hide BeginLease, CountSlots, QueryCandidates, LockCandidate, ReadJob, CheckCpu, CheckMemory, PassOver;
  }

  predicate Looks(step: PgStep) {
    step.BeginLeaseStep? || step.CountSlotsStep? || step.QueryCandidatesStep? || step.LockCandidateStep?
  }

  lemma LookingIsFair(db: Db, step: PgStep, after: Db)
    requires PgNext(db, step, after) && Looks(step) && IsLeasing(after, step.id)
    requires IsLeasing(db, step.id) ==> ScanIsFair(db.txs[step.id])
    ensures ScanIsFair(after.txs[step.id])
    ensures HasScan(after, step.id) && !StartsScan(step, step.id) ==>
      HasScan(db, step.id) && SameScan(db.txs[step.id], after.txs[step.id])
    ensures StartsScan(step, step.id) ==> after.txs[step.id].snapshot == db.state && after.txs[step.id].asOf == step.now
  {
    hide Load, IsCandidate;
    hide ReadJob, CheckCpu, CheckMemory, PassOver;
    hide CommitLease, BeginComplete, LockLease, LockRun, ReadHealth, WriteHealth, CommitComplete,
      BeginRecovery, LockLost, CommitRecovery, BeginBeat, Renew, CommitBeat, BeginCancel, LockRunning, LockRevoked, CommitCancel,
      LockMore, RollBack, InsertRun, WriteJobs;
  }

  lemma CheckingIsFair(db: Db, step: PgStep, after: Db)
    requires PgNext(db, step, after) && Scans(step) && !Looks(step) && IsLeasing(after, step.id)
    requires step.id in db.txs ==> ReadsCurrent(db, step.id)
    requires IsLeasing(db, step.id) ==> ScanIsFair(db.txs[step.id])
    ensures ScanIsFair(after.txs[step.id])
    ensures HasScan(after, step.id) ==> HasScan(db, step.id) && SameScan(db.txs[step.id], after.txs[step.id])
  {
    hide Load, IsCandidate;
    hide BeginLease, CountSlots, QueryCandidates, LockCandidate;
    hide CommitLease, BeginComplete, LockLease, LockRun, ReadHealth, WriteHealth, CommitComplete,
      BeginRecovery, LockLost, CommitRecovery, BeginBeat, Renew, CommitBeat, BeginCancel, LockRunning, LockRevoked, CommitCancel,
      LockMore, RollBack, InsertRun, WriteJobs;
  }

  /** A transaction's own steps keep its scan fair, and to one query. */
  lemma ActorScansFairly(db: Db, step: PgStep, after: Db)
    requires PgNext(db, step, after) && step.Actor().Some? && IsLeasing(after, step.id)
    requires step.id in db.txs ==> ReadsCurrent(db, step.id)
    requires IsLeasing(db, step.id) ==> ScanIsFair(db.txs[step.id])
    ensures ScanIsFair(after.txs[step.id])
    ensures HasScan(after, step.id) && !StartsScan(step, step.id) ==>
      HasScan(db, step.id) && SameScan(db.txs[step.id], after.txs[step.id])
    ensures StartsScan(step, step.id) ==> after.txs[step.id].snapshot == db.state && after.txs[step.id].asOf == step.now
  {
    hide PgNext, ScanIsFair;
    if Looks(step) {
      LookingIsFair(db, step, after);
    } else if Scans(step) {
      CheckingIsFair(db, step, after);
    } else {
      OtherStepsKeepScan(db, step, after);
    }
  }

  lemma StepScansFairly(db: Db, step: PgStep, after: Db, id: TxId)
    requires Sound(db) && PgNext(db, step, after) && IsLeasing(after, id)
    requires IsLeasing(db, id) ==> ScanIsFair(db.txs[id])
    ensures ScanIsFair(after.txs[id])
    ensures HasScan(after, id) && !StartsScan(step, id) ==> HasScan(db, id) && SameScan(db.txs[id], after.txs[id])
    ensures StartsScan(step, id) ==> after.txs[id].snapshot == db.state && after.txs[id].asOf == step.now
  {
    hide PgNext, Inv, ScanIsFair;
    if step.Actor() == Some(id) {
      ActorScansFairly(db, step, after);
    } else {
      hide AllReadsCurrent;
      StepKeepsLocksOwned(db, step, after);
      StepSparesOthers(db, step, after, id);
    }
  }

  lemma {:induction false} ScansAreFair(tr: PgTrace, k: nat, id: TxId)
    requires IsPgTrace(tr) && k < |tr.dbs| && AllTerminal(tr, k) && IsLeasing(tr.dbs[k], id)
    ensures ScanIsFair(tr.dbs[k].txs[id])
    decreases k
  {
    hide PgNext, Inv, AllReadsCurrent, ScanIsFair;
    if k > 0 {
      assert forall n :: 0 <= n < k - 1 ==> TerminalAt(tr, n);
      PgReachableIsSound(tr, k - 1);
      assert PgStepAt(tr, k - 1);
      if IsLeasing(tr.dbs[k - 1], id) { ScansAreFair(tr, k - 1, id); }
      StepScansFairly(tr.dbs[k - 1], tr.steps[k - 1], tr.dbs[k], id);
    }
  }

  /** A scan goes by the records as they were committed at the start of its query. */
  lemma {:induction false} ScanHasItsQuery(tr: PgTrace, k: nat, id: TxId) returns (m: nat)
    requires IsPgTrace(tr) && k < |tr.dbs| && AllTerminal(tr, k) && HasScan(tr.dbs[k], id)
    ensures m < k && StartsScan(tr.steps[m], id)
    ensures tr.dbs[k].txs[id].snapshot == tr.dbs[m].state && tr.dbs[k].txs[id].asOf == tr.steps[m].now
    decreases k
  {
    hide PgNext, Inv, AllReadsCurrent, ScanIsFair;
    m := 0;
    if k == 0 {
      assert false;
    } else {
      assert forall n :: 0 <= n < k - 1 ==> TerminalAt(tr, n);
      PgReachableIsSound(tr, k - 1);
      assert PgStepAt(tr, k - 1);
      if IsLeasing(tr.dbs[k - 1], id) { ScansAreFair(tr, k - 1, id); }
      StepScansFairly(tr.dbs[k - 1], tr.steps[k - 1], tr.dbs[k], id);
      if StartsScan(tr.steps[k - 1], id) {
        m := k - 1;
      } else {
        m := ScanHasItsQuery(tr, k - 1, id);
      }
    }
  }

  /** A run that a lease commits to could start at the instant of the transaction's query:
      it was queued with no retry time ahead, its job enabled, not held and below its
      concurrency limit; and the job, as it was read, asks for no other class. */
  lemma PgGrantsGoByTheQuery(tr: PgTrace, k: nat) returns (m: nat)
    requires IsPgTrace(tr) && k < |tr.steps| && AllTerminal(tr, k) && tr.steps[k].CommitLeaseStep?
    ensures IsLeasing(tr.dbs[k], tr.steps[k].id) && tr.dbs[k].txs[tr.steps[k].id].phase.Chosen?
    ensures m < k && StartsScan(tr.steps[m], tr.steps[k].id)
    ensures var tx := tr.dbs[k].txs[tr.steps[k].id];
      && MayStart(tr.dbs[m].state, tx.phase.run, tr.steps[m].now)
      && (tx.phase.job.computeClass.Some? ==> tx.phase.job.computeClass.value == tx.runner.computeClass)
  {
    hide Inv, AllReadsCurrent, MayStart, IsCandidate;
    assert PgStepAt(tr, k);
    var id := tr.steps[k].id;
    CommitNeedsChoice(tr.dbs[k], tr.steps[k], tr.dbs[k + 1]);
    m := ScanHasItsQuery(tr, k, id);
    ScansAreFair(tr, k, id);
    assert forall n :: 0 <= n < m ==> TerminalAt(tr, n);
    PgReachableIsSound(tr, m);
    InvKnowsIds(tr.dbs[m].state);
    CandidatesMayStart(tr.dbs[m].state, tr.dbs[k].txs[id].phase.run, tr.steps[m].now);
  }

  lemma CommitNeedsChoice(db: Db, step: PgStep, after: Db)
    requires PgNext(db, step, after) && step.CommitLeaseStep?
    ensures IsLeasing(db, step.id) && db.txs[step.id].phase.Chosen?
  {
    hide PgGrant, AfterGrant;
  }

  // ----- What a recovery goes by -----

  /** Every attempt the recovery has taken is past its lease, or its runner is stale by the
      runners as the recovery's query found them. */
  ghost predicate TakesTheLost(db: Db, id: TxId)
    requires IsRecovering(db, id)
  {
    var tx := db.txs[id];
    forall a :: a in tx.taken ==>
      a in db.state.attempts && !Alive(db.state.(runners := tx.runners), db.state.attempts[a], tx.at)
  }

  lemma LostIsNotAlive(s: MemoryState, attempt: Attempt, now: Millis)
    requires Lost(s, attempt, now)
    ensures !Alive(s, attempt, now)
  {}

  lemma ActorTakesTheLost(db: Db, step: PgStep, after: Db)
    requires PgNext(db, step, after) && step.Actor().Some? && IsRecovering(after, step.id)
    requires step.id in db.txs ==> ReadsCurrent(db, step.id)
    requires IsRecovering(db, step.id) ==> TakesTheLost(db, step.id)
    ensures TakesTheLost(after, step.id)
  {
    hide Load, IsCandidate, AfterSignal, PgFinished, PgTaken, PgBeaten, PgCanceled, PgGrant, AfterGrant, AttemptPasses, Lost, Alive;
    if step.LockLostStep? {
      LostIsNotAlive(db.state.(runners := db.txs[step.id].runners), db.state.attempts[step.attemptId], db.txs[step.id].at);
    }
  }

  /** Nobody else touches the attempts and leases that a recovery holds. */
  lemma OthersLeaveTheLost(db: Db, after: Db, id: TxId)
    requires Inv(db.state) && IsRecovering(db, id) && ReadsCurrent(db, id) && Undisturbed(db, after, id) && TakesTheLost(db, id)
    ensures IsRecovering(after, id) && TakesTheLost(after, id)
  {
    hide RunsOk, LeasesOk, Numbered, HealthKeyed;
    var tx := db.txs[id];
    forall a | a in tx.taken
      ensures a in after.state.attempts && !Alive(after.state.(runners := tx.runners), after.state.attempts[a], tx.at)
    {
      assert TakenHeld(db, id, a, tx.lostRuns);
      assert AttemptOk(db.state, db.state.attempts[a]);
      assert Holds(db, AttemptRow(a), id) && Holds(db, LeaseRow(db.state.attempts[a].leaseId.value), id);
    }
  }

  lemma {:induction false} RecoveriesTakeTheLost(tr: PgTrace, k: nat, id: TxId)
    requires IsPgTrace(tr) && k < |tr.dbs| && AllTerminal(tr, k) && IsRecovering(tr.dbs[k], id)
    ensures TakesTheLost(tr.dbs[k], id)
    decreases k
  {
    hide PgNext, Inv, AllReadsCurrent, TakesTheLost;
    if k > 0 {
      assert forall n :: 0 <= n < k - 1 ==> TerminalAt(tr, n);
      PgReachableIsSound(tr, k - 1);
      assert PgStepAt(tr, k - 1);
      if IsRecovering(tr.dbs[k - 1], id) { RecoveriesTakeTheLost(tr, k - 1, id); }
      StepTakesTheLost(tr.dbs[k - 1], tr.steps[k - 1], tr.dbs[k], id);
    }
  }

  lemma StepTakesTheLost(db: Db, step: PgStep, after: Db, id: TxId)
    requires Sound(db) && PgNext(db, step, after) && IsRecovering(after, id)
    requires IsRecovering(db, id) ==> TakesTheLost(db, id)
    ensures TakesTheLost(after, id)
  {
    hide PgNext, Inv, TakesTheLost;
    if step.Actor() == Some(id) {
      ActorTakesTheLost(db, step, after);
    } else {
      hide AllReadsCurrent;
      StepKeepsLocksOwned(db, step, after);
      StepSparesOthers(db, step, after, id);
      OneReads(db, id);
      OthersLeaveTheLost(db, after, id);
    }
  }

  /** At the commit of a recovery every attempt it takes is still running, and past its
      lease or with a runner that was stale when the query started; it fails as lost, and
      its run waits again or is out of attempts. */
  lemma PgRecoveryFailsTheLost(tr: PgTrace, k: nat)
    requires IsPgTrace(tr) && k < |tr.steps| && AllTerminal(tr, k) && tr.steps[k].CommitRecoveryStep?
    ensures IsRecovering(tr.dbs[k], tr.steps[k].id)
    ensures var s, t, tx := tr.dbs[k].state, tr.dbs[k + 1].state, tr.dbs[k].txs[tr.steps[k].id];
      forall a :: a in s.attempts ==>
        && AttemptOk(s, s.attempts[a])
        && if a in tx.taken then
             s.attempts[a].status.AttemptRunning? && !Alive(s.(runners := tx.runners), s.attempts[a], tx.at) && FailedAsLost(s, t, a, tx.at)
           else a in t.attempts && t.attempts[a] == s.attempts[a]
  {
    hide RunsOk, LeasesOk, Numbered, TakeAttempts, Alive, FailedAsLost;
    PgRecoveryIsAtomic(tr, k);
    PgReachableIsSound(tr, k);
    var s, tx := tr.dbs[k].state, tr.dbs[k].txs[tr.steps[k].id];
    RecoveriesTakeTheLost(tr, k, tr.steps[k].id);
    forall a | a in s.attempts
      ensures AttemptOk(s, s.attempts[a])
      ensures if a in tx.taken then FailedAsLost(s, TakeAttempts(s, tx.taken, tx.at), a, tx.at)
              else a in TakeAttempts(s, tx.taken, tx.at).attempts && TakeAttempts(s, tx.taken, tx.at).attempts[a] == s.attempts[a]
    {
      TakenFails(s, tx.taken, tx.at, a);
    }
  }

  lemma TakenFails(s: MemoryState, taken: set<Id>, now: Millis, a: Id)
    requires Inv(s) && a in s.attempts
    requires forall b :: b in taken ==> b in s.attempts && s.attempts[b].status.AttemptRunning?
    ensures AttemptOk(s, s.attempts[a])
    ensures var t := TakeAttempts(s, taken, now);
      if a in taken then FailedAsLost(s, t, a, now) else a in t.attempts && t.attempts[a] == s.attempts[a]
  {
    hide RunsOk, LeasesOk, Numbered, HealthKeyed;
    TakenTogether(s, taken, a);
  }

  // ----- How reports, heartbeats and cancels come out -----

  /** The commit of a completion, whatever it overlaps with: the attempt ran on the
      caller's runner under an open lease that had not run out at its time; it ends as
      reported, the lease is released, and the run is decided by the report. */
  lemma PgCompletionDecidesRun(tr: PgTrace, k: nat)
    requires IsPgTrace(tr) && k < |tr.steps| && AllTerminal(tr, k + 1) && tr.steps[k].CommitCompleteStep?
    ensures IsCompleting(tr.dbs[k], tr.steps[k].id)
    ensures var s, t, tx := tr.dbs[k].state, tr.dbs[k + 1].state, tr.dbs[k].txs[tr.steps[k].id];
      && tx.p.attemptId in s.attempts && tx.p.attemptId in t.attempts
      && var was := s.attempts[tx.p.attemptId];
         && was.finishedAt.None? && was.runnerId == Some(tx.p.runnerId)
         && (was.cancelRequestedAt.Some? ==> tx.p.status.AttemptCanceled?)
         && was.leaseId.Some? && was.leaseId.value in s.leases && was.leaseId.value in t.leases
         && t.attempts[tx.p.attemptId] == was.(status := tx.p.status, failureClass := tx.p.failureClass, finishedAt := Some(tx.now))
         && was.runId in s.runs && was.runId in t.runs
         && EndsAs(s.runs[was.runId], tx.p.status, tx.p.failureClass, t.runs[was.runId].status)
         && var lease := s.leases[was.leaseId.value];
            && lease.ackedAt.None? && lease.releasedAt.None? && lease.expiresAt > tx.now
            && t.leases[was.leaseId.value] == lease.(ackedAt := Some(tx.now), releasedAt := Some(tx.now))
  {
    hide Inv, AllReadsCurrent;
    assert forall n :: 0 <= n < k ==> TerminalAt(tr, n);
    PgReachableIsSound(tr, k);
    assert PgStepAt(tr, k) && TerminalAt(tr, k);
    OneReads(tr.dbs[k], tr.steps[k].id);
    CommitDecides(tr.dbs[k], tr.steps[k].id, tr.steps[k].hash);
  }

  lemma CommitDecides(db: Db, id: TxId, hash: nat)
    requires Inv(db.state) && IsCompleting(db, id) && ReadsCurrent(db, id) && ReadyToCommit(db.state, db.txs[id])
    requires db.txs[id].p.status.Terminal()
    ensures var s, tx := db.state, db.txs[id];
      && Preflight(s, tx.p, tx.now).None?
      && s.attempts[tx.p.attemptId].leaseId == Some(tx.lease.value.id) && s.attempts[tx.p.attemptId].runId == tx.run.value.id
      && EndsAs(s.runs[tx.run.value.id], tx.p.status, tx.p.failureClass, PgFinished(s, tx, hash).runs[tx.run.value.id].status)
  {
    hide RunsOk, AttemptsOk, LeasesOk, Numbered, HealthKeyed, BackoffDelay, AfterSignal;
    CompletionStillPasses(db, id);
    CompletionHoldsItsRows(db, id);
  }

  /** The commit of a heartbeat stores the runner as it reports itself and moves the expiry
      of leases of its own, all of them open, and of nothing else. */
  lemma PgBeatRenewsItsOwn(tr: PgTrace, k: nat)
    requires IsPgTrace(tr) && k < |tr.steps| && AllTerminal(tr, k) && tr.steps[k].CommitBeatStep?
    ensures IsBeating(tr.dbs[k], tr.steps[k].id)
    ensures var s, t, tx, step := tr.dbs[k].state, tr.dbs[k + 1].state, tr.dbs[k].txs[tr.steps[k].id], tr.steps[k];
      && t == s.(runners := t.runners, leases := t.leases)
      && tx.beat.runnerId in t.runners && t.runners == s.runners[tx.beat.runnerId := t.runners[tx.beat.runnerId]]
      && RunnerAsReported(t.runners[tx.beat.runnerId], tx.beat, step.now)
      && t.leases.Keys == s.leases.Keys
      && forall l :: l in s.leases ==>
           if l in tx.renewed then
             && s.leases[l].runnerId == tx.beat.runnerId && s.leases[l].Open()
             && t.leases[l] == s.leases[l].(expiresAt := step.expiresAt)
           else t.leases[l] == s.leases[l]
  {
    hide Inv, AllReadsCurrent;
    PgReachableIsSound(tr, k);
    assert PgStepAt(tr, k);
    OneReads(tr.dbs[k], tr.steps[k].id);
    RenewalsAreOwn(tr, k, tr.steps[k].id);
    assert forall l :: l in tr.dbs[k].txs[tr.steps[k].id].renewed ==> RenewedHeld(tr.dbs[k], tr.steps[k].id, l);
  }

  ghost predicate RenewsItsOwn(db: Db, id: TxId)
    requires IsBeating(db, id)
  {
    forall l :: l in db.txs[id].renewed ==> l in db.state.leases && db.state.leases[l].runnerId == db.txs[id].beat.runnerId
  }

  lemma {:induction false} RenewalsAreOwn(tr: PgTrace, k: nat, id: TxId)
    requires IsPgTrace(tr) && k < |tr.dbs| && AllTerminal(tr, k) && IsBeating(tr.dbs[k], id)
    ensures RenewsItsOwn(tr.dbs[k], id)
    decreases k
  {
    hide PgNext, Inv, AllReadsCurrent, RenewsItsOwn;
    if k > 0 {
      assert forall n :: 0 <= n < k - 1 ==> TerminalAt(tr, n);
      PgReachableIsSound(tr, k - 1);
      assert PgStepAt(tr, k - 1);
      if IsBeating(tr.dbs[k - 1], id) { RenewalsAreOwn(tr, k - 1, id); }
      StepRenewsItsOwn(tr.dbs[k - 1], tr.steps[k - 1], tr.dbs[k], id);
    }
  }

  lemma StepRenewsItsOwn(db: Db, step: PgStep, after: Db, id: TxId)
    requires Sound(db) && PgNext(db, step, after) && IsBeating(after, id)
    requires IsBeating(db, id) ==> RenewsItsOwn(db, id)
    ensures RenewsItsOwn(after, id)
  {
    hide PgNext, Inv, RenewsItsOwn;
    if step.Actor() == Some(id) {
      ActorRenewsItsOwn(db, step, after);
    } else {
      hide AllReadsCurrent;
      StepKeepsLocksOwned(db, step, after);
      StepSparesOthers(db, step, after, id);
      OneReads(db, id);
      OthersLeaveRenewals(db, after, id);
    }
  }

  lemma ActorRenewsItsOwn(db: Db, step: PgStep, after: Db)
    requires PgNext(db, step, after) && step.Actor().Some? && IsBeating(after, step.id)
    requires step.id in db.txs ==> ReadsCurrent(db, step.id)
    requires IsBeating(db, step.id) ==> RenewsItsOwn(db, step.id)
    ensures RenewsItsOwn(after, step.id)
  {
    hide Load, IsCandidate, AfterSignal, PgFinished, PgTaken, PgBeaten, PgCanceled, PgGrant, AfterGrant, AttemptPasses, Lost;
  }

  lemma OthersLeaveRenewals(db: Db, after: Db, id: TxId)
    requires IsBeating(db, id) && ReadsCurrent(db, id) && Undisturbed(db, after, id) && RenewsItsOwn(db, id)
    ensures IsBeating(after, id) && RenewsItsOwn(after, id)
  {
    forall l | l in db.txs[id].renewed
      ensures l in after.state.leases && after.state.leases[l] == db.state.leases[l]
    {
      assert RenewedHeld(db, id, l);
      assert Holds(db, LeaseRow(l), id);
    }
  }

  /** The commit of a cancel ends a run that is queued, keeping what it last failed of and
      its retry time; and on a running one marks the attempt that runs and its lease. */
  lemma PgCancelEndsOrMarks(tr: PgTrace, k: nat)
    requires IsPgTrace(tr) && k < |tr.steps| && AllTerminal(tr, k) && tr.steps[k].CommitCancelStep?
    ensures IsCanceling(tr.dbs[k], tr.steps[k].id)
    ensures var s, t, tx, at := tr.dbs[k].state, tr.dbs[k + 1].state, tr.dbs[k].txs[tr.steps[k].id], tr.steps[k].now;
      && tx.target.id in s.runs && s.runs[tx.target.id] == tx.target && (tx.target.status.Queued? || tx.target.status.Running?)
      && if tx.target.status.Queued? then t == s.(runs := s.runs[tx.target.id := tx.target.(status := Canceled)])
         else
           && tx.marked.Some? && tx.marked.value.id in s.attempts && tx.marked.value.leaseId.Some?
           && var a, l := tx.marked.value.id, tx.marked.value.leaseId.value;
              && s.attempts[a] == tx.marked.value && RunsFor(s.attempts[a], tx.target.id) && l in s.leases
              && t == s.(attempts := s.attempts[a := s.attempts[a].(cancelRequestedAt := Some(at))],
                         leases := s.leases[l := s.leases[l].(revokeRequestedAt := Some(at))])
  {
    hide RunsOk, LeasesOk, Numbered, HealthKeyed, AllReadsCurrent;
    PgReachableIsSound(tr, k);
    assert PgStepAt(tr, k);
    OneReads(tr.dbs[k], tr.steps[k].id);
    var s, tx := tr.dbs[k].state, tr.dbs[k].txs[tr.steps[k].id];
    if tx.marked.Some? { assert AttemptOk(s, s.attempts[tx.marked.value.id]); }
  }
}
