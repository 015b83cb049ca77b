/**
 What every interleaving of the Postgres transactions keeps.
 */
module PgSafety {
  import opened Domain
  import opened RetryPolicy
  import opened Loads
  import opened Transitions
  import opened Invariant
  import opened Steps
  import opened PgProtocol

  // ----- What a transaction knows of the rows it holds -----

  predicate RunReadCurrent(db: Db, id: TxId, run: Run) {
    Holds(db, RunRow(run.id), id) && run.id in db.state.runs && db.state.runs[run.id] == run
  }

  predicate AttemptReadCurrent(db: Db, id: TxId, attempt: Attempt) {
    && Holds(db, AttemptRow(attempt.id), id)
    && attempt.id in db.state.attempts && db.state.attempts[attempt.id] == attempt
  }

  predicate LeaseReadCurrent(db: Db, id: TxId, lease: Lease) {
    Holds(db, LeaseRow(lease.id), id) && lease.id in db.state.leases && db.state.leases[lease.id] == lease
  }

  predicate RunnerReadCurrent(db: Db, id: TxId, runner: Runner) {
    && Holds(db, RunnerRow(runner.id), id)
    && runner.id in db.state.runners && db.state.runners[runner.id] == runner
  }

  ghost predicate LeasingReads(db: Db, id: TxId, runner: Runner, seen: map<Id, Run>, phase: LeasePhase) {
    && RunnerReadCurrent(db, id, runner)
    && (forall r {:trigger seen[r]} :: r in seen ==> seen[r].id == r && seen[r].status.Queued? && RunReadCurrent(db, id, seen[r]))
    && (phase.ForRun() ==>
          && phase.run.id in seen && seen[phase.run.id] == phase.run
          && phase.run.jobId == phase.job.id && phase.job.id in db.state.jobs)
  }

  /** The health to be written is what the completion makes of the record it read. */
  predicate SignalMeant(tx: Tx)
    requires tx.Completing? && tx.run.Some? && tx.signal.Some?
  {
    var signal, jobId := tx.signal.value, tx.run.value.jobId;
    && (signal.read.Some? ==> signal.read.value.jobId == jobId)
    && signal.signaled == AfterSignal(signal.read, jobId, tx.p.failureClass, tx.p.status, tx.now)
  }

  predicate CompletingReads(db: Db, id: TxId, tx: Tx)
    requires tx.Completing?
  {
    && tx.attempt.id == tx.p.attemptId
    && AttemptReadCurrent(db, id, tx.attempt) && AttemptPasses(tx.attempt, tx.p)
    && (tx.lease.Some? ==>
          && tx.attempt.leaseId == Some(tx.lease.value.id) && LeaseReadCurrent(db, id, tx.lease.value)
          && tx.lease.value.Open() && tx.lease.value.expiresAt > tx.now)
    && (tx.run.Some? ==> tx.lease.Some? && tx.attempt.runId == tx.run.value.id && RunReadCurrent(db, id, tx.run.value))
    && (tx.signal.Some? ==>
          && tx.run.Some? && SignalMeant(tx)
          && (tx.signal.value.written ==> Holds(db, HealthRow(tx.run.value.jobId), id)))
  }

  predicate TakenHeld(db: Db, id: TxId, a: Id, lostRuns: map<Id, Run>) {
    && a in db.state.attempts && Holds(db, AttemptRow(a), id)
    && var attempt := db.state.attempts[a];
       && attempt.status.AttemptRunning? && attempt.runId in lostRuns
       && attempt.leaseId.Some? && Holds(db, LeaseRow(attempt.leaseId.value), id)
  }

  predicate RunOfTaken(s: MemoryState, taken: set<Id>, r: Id) {
    exists a :: a in taken && a in s.attempts && s.attempts[a].runId == r
  }

  ghost predicate RecoveringReads(db: Db, id: TxId, taken: set<Id>, lostRuns: map<Id, Run>) {
    && (forall a {:trigger TakenHeld(db, id, a, lostRuns)} :: a in taken ==> TakenHeld(db, id, a, lostRuns))
    && (forall r {:trigger lostRuns[r]} :: r in lostRuns ==>
          lostRuns[r].id == r && RunReadCurrent(db, id, lostRuns[r]) && RunOfTaken(db.state, taken, r))
  }

  predicate RenewedHeld(db: Db, id: TxId, l: Id) {
    Holds(db, LeaseRow(l), id) && l in db.state.leases && db.state.leases[l].Open()
  }

  ghost predicate BeatingReads(db: Db, id: TxId, beat: RunnerParams, renewed: set<Id>) {
    && Holds(db, RunnerRow(beat.runnerId), id)
    && forall l {:trigger RenewedHeld(db, id, l)} :: l in renewed ==> RenewedHeld(db, id, l)
  }

  predicate CancelingReads(db: Db, id: TxId, target: Run, marked: Option<Attempt>, revoked: bool) {
    && RunReadCurrent(db, id, target) && !target.status.Terminal() && (revoked ==> marked.Some?)
    && (marked.Some? ==>
          && target.status.Running? && RunsFor(marked.value, target.id) && AttemptReadCurrent(db, id, marked.value)
          && (revoked ==> marked.value.leaseId.Some? && Holds(db, LeaseRow(marked.value.leaseId.value), id)))
  }

  /** Every row the transaction has locked is still as it read it. */
  ghost predicate ReadsCurrent(db: Db, id: TxId)
    requires id in db.txs
  {
    match db.txs[id]
    case Leasing(runner, _, _, seen, phase) => LeasingReads(db, id, runner, seen, phase)
    case Completing(_, _, _, _, _, _) => CompletingReads(db, id, db.txs[id])
    case Recovering(_, _, taken, lostRuns) => RecoveringReads(db, id, taken, lostRuns)
    case Beating(beat, renewed) => BeatingReads(db, id, beat, renewed)
    case Canceling(target, marked, revoked) => CancelingReads(db, id, target, marked, revoked)
  }

  ghost predicate AllReadsCurrent(db: Db) {
    forall id {:trigger ReadsCurrent(db, id)} :: id in db.txs ==> ReadsCurrent(db, id)
  }

  ghost predicate LocksOwned(db: Db) { forall row :: row in db.locks ==> db.locks[row] in db.txs }

  /** The unconditional part: linked records, and no transaction works on stale rows. */
  ghost predicate Sound(db: Db) { Inv(db.state) && AllReadsCurrent(db) && LocksOwned(db) }

  // ----- Transactions do not disturb one another -----

  predicate SameRow(s: MemoryState, t: MemoryState, row: Row) {
    match row
    case RunnerRow(w) => w in s.runners ==> w in t.runners && t.runners[w] == s.runners[w]
    case RunRow(r) => r in s.runs ==> r in t.runs && t.runs[r] == s.runs[r]
    case AttemptRow(a) => a in s.attempts ==> a in t.attempts && t.attempts[a] == s.attempts[a]
    case LeaseRow(l) => l in s.leases ==> l in t.leases && t.leases[l] == s.leases[l]
    case HealthRow(j) => j in s.health ==> j in t.health && t.health[j] == s.health[j]
  }

  /** The step leaves the transaction, its locks and the rows behind them alone. */
  ghost predicate Undisturbed(db: Db, after: Db, id: TxId) {
    && id in db.txs && id in after.txs && after.txs[id] == db.txs[id]
    && db.state.jobs.Keys <= after.state.jobs.Keys
    && forall row {:trigger Holds(db, row, id)} :: Holds(db, row, id) ==> Holds(after, row, id) && SameRow(db.state, after.state, row)
  }

  lemma UndisturbedReads(db: Db, after: Db, id: TxId)
    requires id in db.txs && ReadsCurrent(db, id) && Undisturbed(db, after, id)
    ensures ReadsCurrent(after, id)
  {
    match db.txs[id]
    case Leasing(runner, _, _, seen, phase) =>
      assert Holds(db, RunnerRow(runner.id), id);
      forall r | r in seen
        ensures RunReadCurrent(after, id, seen[r])
      {
        assert RunReadCurrent(db, id, seen[r]);
      }
    case Completing(p, attempt, lease, now, run, signal) =>
      assert Holds(db, AttemptRow(attempt.id), id);
      if lease.Some? { assert Holds(db, LeaseRow(lease.value.id), id); }
      if run.Some? {
        assert Holds(db, RunRow(run.value.id), id);
        assert signal.Some? && signal.value.written ==> Holds(db, HealthRow(run.value.jobId), id);
      }
    case Recovering(_, _, taken, lostRuns) =>
      UndisturbedRecovery(db, after, id, taken, lostRuns);
    case Beating(beat, renewed) =>
      assert Holds(db, RunnerRow(beat.runnerId), id);
      forall l | l in renewed
        ensures RenewedHeld(after, id, l)
      {
        assert RenewedHeld(db, id, l);
      }
    case Canceling(target, marked, revoked) =>
      assert Holds(db, RunRow(target.id), id);
      if marked.Some? { assert Holds(db, AttemptRow(marked.value.id), id); }
  }

  lemma UndisturbedRecovery(db: Db, after: Db, id: TxId, taken: set<Id>, lostRuns: map<Id, Run>)
    requires RecoveringReads(db, id, taken, lostRuns) && Undisturbed(db, after, id)
    ensures RecoveringReads(after, id, taken, lostRuns)
  {
    hide Undisturbed, TakenHeld, RunReadCurrent, RunOfTaken;
    forall a | a in taken
      ensures TakenHeld(after, id, a, lostRuns)
    {
      UndisturbedAttempt(db, after, id, a, lostRuns);
    }
    forall r | r in lostRuns
      ensures RunReadCurrent(after, id, lostRuns[r]) && RunOfTaken(after.state, taken, r)
    {
      UndisturbedRun(db, after, id, lostRuns[r]);
      UndisturbedRunOfTaken(db, after, id, taken, lostRuns, r);
    }
  }

  lemma UndisturbedAttempt(db: Db, after: Db, id: TxId, a: Id, lostRuns: map<Id, Run>)
    requires TakenHeld(db, id, a, lostRuns) && Undisturbed(db, after, id)
    ensures TakenHeld(after, id, a, lostRuns)
  {}

  lemma UndisturbedRun(db: Db, after: Db, id: TxId, run: Run)
    requires RunReadCurrent(db, id, run) && Undisturbed(db, after, id)
    ensures RunReadCurrent(after, id, run)
  {}

  lemma UndisturbedRunOfTaken(db: Db, after: Db, id: TxId, taken: set<Id>, lostRuns: map<Id, Run>, r: Id)
    requires forall a {:trigger TakenHeld(db, id, a, lostRuns)} :: a in taken ==> TakenHeld(db, id, a, lostRuns)
    requires RunOfTaken(db.state, taken, r) && Undisturbed(db, after, id)
    ensures RunOfTaken(after.state, taken, r)
  {
    var a :| a in taken && a in db.state.attempts && db.state.attempts[a].runId == r;
    assert TakenHeld(db, id, a, lostRuns);
    assert Holds(db, AttemptRow(a), id);
  }

  // ----- A step touches only its own transaction -----

  /** Only the acting transaction and its locks change. */
  ghost predicate LocalStep(db: Db, after: Db, id: TxId) {
    && (forall k :: k in db.txs && k != id ==> k in after.txs && after.txs[k] == db.txs[k])
    && (forall k :: k in after.txs ==> k in db.txs || k == id)
    && (forall row :: row in db.locks && db.locks[row] != id ==> row in after.locks && after.locks[row] == db.locks[row])
    && (forall row :: row in after.locks ==>
          (row in db.locks && after.locks[row] == db.locks[row] && after.locks[row] != id)
          || (after.locks[row] == id && id in after.txs))
  }

  lemma EndedIsLocal(db: Db, id: TxId, state: MemoryState)
    ensures LocalStep(db, Ended(db, id, state), id)
  {}

  lemma LockedIsLocal(db: Db, id: TxId, row: Row, tx: Tx)
    requires Free(db, row, id)
    ensures LocalStep(db, Db(db.state, db.locks[row := id], db.txs[id := tx]), id)
  {}

  lemma AdvancedIsLocal(db: Db, id: TxId, tx: Tx)
    requires LocksOwned(db)
    ensures LocalStep(db, db.(txs := db.txs[id := tx]), id)
  {}

  lemma SteadyIsLocal(db: Db, id: TxId)
    requires id in db.txs
    ensures LocalStep(db, db, id)
  {}

  lemma LostIsLocal(db: Db, id: TxId, a: Row, r: Row, l: Row, tx: Tx)
    requires a !in db.locks && r !in db.locks && l !in db.locks
    ensures LocalStep(db, Db(db.state, db.locks[a := id][r := id][l := id], db.txs[id := tx]), id)
  {}

  /** Steps that write nothing: statements that read or lock, and roll-backs. */
  lemma QuietStep(db: Db, step: PgStep, after: Db)
    requires LocksOwned(db) && PgNext(db, step, after) && !step.Writes()
    ensures after.state == db.state && LocalStep(db, after, step.id)
  {
    hide Load, IsCandidate, AttemptPasses, LocalStep, LocksOwned, Ended;
    var id := step.id;
    match step
    case BeginLeaseStep(_, w) => LockedIsLocal(db, id, RunnerRow(w), after.txs[id]);
    case CountSlotsStep(_) =>
      EndedIsLocal(db, id, db.state);
      AdvancedIsLocal(db, id, db.txs[id].(phase := Counted));
      EndedKeepsState(db, id);
    case QueryCandidatesStep(_, _) => AdvancedIsLocal(db, id, after.txs[id]);
    case LockCandidateStep(_, r) => LockedIsLocal(db, id, RunRow(r), after.txs[id]);
    case CheckCpuStep(_) => AdvancedIsLocal(db, id, after.txs[id]);
    case ReadJobStep(_, _) =>
      SteadyIsLocal(db, id);
      if after != db { AdvancedIsLocal(db, id, after.txs[id]); }
    case CheckMemoryStep(_) => AdvancedIsLocal(db, id, after.txs[id]);
    case PassOverStep(_) => AdvancedIsLocal(db, id, after.txs[id]);
    case BeginCompleteStep(_, p) => LockedIsLocal(db, id, AttemptRow(p.attemptId), after.txs[id]);
    case LockLeaseStep(_, _) => LockedIsLocal(db, id, LeaseRow(db.txs[id].attempt.leaseId.value), after.txs[id]);
    case LockRunStep(_) => LockedIsLocal(db, id, RunRow(db.txs[id].attempt.runId), after.txs[id]);
    case ReadHealthStep(_) => AdvancedIsLocal(db, id, after.txs[id]);
    case WriteHealthStep(_) => LockedIsLocal(db, id, HealthRow(db.txs[id].run.value.jobId), after.txs[id]);
    case BeginRecoveryStep(_, _) => AdvancedIsLocal(db, id, after.txs[id]);
    case LockLostStep(_, a) =>
      var attempt := db.state.attempts[a];
      LostIsLocal(db, id, AttemptRow(a), RunRow(attempt.runId), LeaseRow(attempt.leaseId.value), after.txs[id]);
    case BeginBeatStep(_, p) => LockedIsLocal(db, id, RunnerRow(p.runnerId), after.txs[id]);
    case RenewStep(_, l) => LockedIsLocal(db, id, LeaseRow(l), after.txs[id]);
    case BeginCancelStep(_, r) => LockedIsLocal(db, id, RunRow(r), after.txs[id]);
    case LockRunningStep(_, a) => LockedIsLocal(db, id, AttemptRow(a), after.txs[id]);
    case LockRevokedStep(_) => LockedIsLocal(db, id, LeaseRow(db.txs[id].marked.value.leaseId.value), after.txs[id]);
    case LockMoreStep(_, row) =>
      LockedIsLocal(db, id, row, db.txs[id]);
      assert db.txs[id := db.txs[id]] == db.txs;
    case RollBackStep(_) =>
      EndedIsLocal(db, id, db.state);
      EndedKeepsState(db, id);
  }

  lemma EndedKeepsState(db: Db, id: TxId)
    ensures Ended(db, id, db.state).state == db.state
  {}

  /** A local step that leaves the rows held by others alone leaves others undisturbed. */
  lemma OthersUndisturbed(db: Db, after: Db, id: TxId, k: TxId)
    requires LocalStep(db, after, id) && k in db.txs && k != id
    requires db.state.jobs.Keys <= after.state.jobs.Keys
    requires forall row :: row in db.locks && db.locks[row] != id ==> SameRow(db.state, after.state, row)
    ensures Undisturbed(db, after, k)
  {}

  // ----- What the acting transaction has read is current -----

  lemma ScanStepReads(db: Db, step: PgStep, after: Db)
    requires Sound(db) && PgNext(db, step, after)
    requires step.CountSlotsStep? || step.QueryCandidatesStep? || step.CheckCpuStep? || step.CheckMemoryStep? || step.PassOverStep?
    ensures step.id in after.txs ==> ReadsCurrent(after, step.id)
  {
    hide Inv, LocksOwned, AllReadsCurrent, ReadsCurrent, Load;
    OneReads(db, step.id);
    if step.id in after.txs {
      PhaseReads(db, after, step.id);
    }
  }

  lemma BeginLeaseReads(db: Db, id: TxId, w: string, after: Db)
    requires Inv(db.state) && BeginLease(db, id, w, after)
    ensures ReadsCurrent(after, id)
  {
    hide RunsOk, AttemptsOk, LeasesOk, Numbered, HealthKeyed;
  }

  /** Moving on in the scan, with the same run in hand or none. */
  lemma PhaseReads(db: Db, after: Db, id: TxId)
    requires IsLeasing(db, id) && ReadsCurrent(db, id) && IsLeasing(after, id)
    requires after.state == db.state && after.locks == db.locks
    requires after.txs[id].runner == db.txs[id].runner && after.txs[id].seen == db.txs[id].seen
    requires var was, phase := db.txs[id].phase, after.txs[id].phase;
      phase.ForRun() ==> was.ForRun() && phase.run == was.run && phase.job == was.job
    ensures ReadsCurrent(after, id)
  {
    var seen := db.txs[id].seen;
    forall r | r in seen
      ensures RunReadCurrent(after, id, seen[r])
    {
      assert RunReadCurrent(db, id, seen[r]);
    }
  }

  lemma ReadJobReads(db: Db, after: Db, id: TxId, r: Id)
    requires Inv(db.state) && IsLeasing(db, id) && ReadsCurrent(db, id) && ReadJob(db, id, r, after)
    ensures ReadsCurrent(after, id)
  {
    hide RunsOk, AttemptsOk, LeasesOk, Numbered, HealthKeyed;
    var seen := db.txs[id].seen;
    forall q | q in seen
      ensures RunReadCurrent(after, id, seen[q])
    {
      assert RunReadCurrent(db, id, seen[q]);
    }
  }

  lemma CandidateReads(db: Db, after: Db, id: TxId, r: Id)
    requires Inv(db.state) && IsLeasing(db, id) && ReadsCurrent(db, id) && LockCandidate(db, id, r, after)
    ensures ReadsCurrent(after, id)
  {
    hide RunsOk, AttemptsOk, LeasesOk, Numbered, HealthKeyed;
    var seen := db.txs[id].seen;
    forall q | q in seen
      ensures RunReadCurrent(after, id, seen[q])
    {
      assert RunReadCurrent(db, id, seen[q]);
    }
  }

  lemma CompletingStepReads(db: Db, step: PgStep, after: Db)
    requires Sound(db) && PgNext(db, step, after)
    requires step.BeginCompleteStep? || step.LockLeaseStep? || step.LockRunStep? || step.ReadHealthStep? || step.WriteHealthStep?
    ensures ReadsCurrent(after, step.id)
  {
    hide RunsOk, AttemptsOk, LeasesOk, Numbered, AfterSignal;
    if step.id in db.txs { assert ReadsCurrent(db, step.id); }
  }

  lemma CancelingStepReads(db: Db, step: PgStep, after: Db)
    requires Sound(db) && PgNext(db, step, after)
    requires step.BeginCancelStep? || step.LockRunningStep? || step.LockRevokedStep?
    ensures ReadsCurrent(after, step.id)
  {
    hide RunsOk, AttemptsOk, LeasesOk, Numbered, HealthKeyed;
    if step.id in db.txs { assert ReadsCurrent(db, step.id); }
  }

  lemma BeatingStepReads(db: Db, step: PgStep, after: Db)
    requires Sound(db) && PgNext(db, step, after)
    requires step.BeginBeatStep? || step.RenewStep?
    ensures ReadsCurrent(after, step.id)
  {
    hide RunsOk, AttemptsOk, LeasesOk, Numbered, HealthKeyed;
    var id := step.id;
    if id in db.txs {
      assert ReadsCurrent(db, id);
      forall l | l in after.txs[id].renewed
        ensures RenewedHeld(after, id, l)
      {
        assert l in db.txs[id].renewed ==> RenewedHeld(db, id, l);
      }
    }
  }

  lemma LockLostReads(db: Db, id: TxId, a: Id, after: Db)
    requires Sound(db) && LockLost(db, id, a, after)
    ensures ReadsCurrent(after, id)
  {
    hide RunsOk, AttemptsOk, LeasesOk, Numbered, HealthKeyed;
    assert ReadsCurrent(db, id);
    var was, tx := db.txs[id], after.txs[id];
    forall b | b in tx.taken
      ensures TakenHeld(after, id, b, tx.lostRuns)
    {
      assert b in was.taken ==> TakenHeld(db, id, b, was.lostRuns);
    }
    forall r | r in tx.lostRuns
      ensures tx.lostRuns[r].id == r && RunReadCurrent(after, id, tx.lostRuns[r]) && RunOfTaken(after.state, tx.taken, r)
    {
      if r == db.state.attempts[a].runId {
        assert a in tx.taken;
      } else {
        assert RunReadCurrent(db, id, was.lostRuns[r]) && RunOfTaken(db.state, was.taken, r);
        var b :| b in was.taken && b in db.state.attempts && db.state.attempts[b].runId == r;
        assert b in tx.taken;
      }
    }
  }

  // ----- Commits -----

  /** The rows that other transactions hold are left alone, and no job disappears. */
  ghost predicate SparesOthers(db: Db, after: Db, id: TxId) {
    && db.state.jobs.Keys <= after.state.jobs.Keys
    && forall row :: row in db.locks && db.locks[row] != id ==> SameRow(db.state, after.state, row)
  }

  /** What a good write keeps besides: the invariant, and records that only move forwards. */
  ghost predicate GoodWrite(db: Db, after: Db, id: TxId) {
    Inv(after.state) && Evolves(db.state, after.state) && SparesOthers(db, after, id)
  }

  lemma GrantFitsKeepsInv(s: MemoryState, g: Leased)
    requires Inv(s) && GrantFits(s, g)
    ensures Inv(AfterGrant(s, g))
  {
    hide RunsOk, AttemptsOk, LeasesOk, Numbered, GrantFits;
    var t := AfterGrant(s, g);
    GrantKeepsRuns(s, g, t);
    GrantKeepsAttempts(s, g, t);
    GrantKeepsNumbers(s, g, t);
  }

  /** The run about to be leased is still queued, and the attempt gets its next number. */
  lemma ChosenFits(db: Db, id: TxId, expiresAt: Millis, now: Millis)
    requires Inv(db.state) && IsLeasing(db, id) && ReadsCurrent(db, id) && db.txs[id].phase.Chosen?
    ensures var run := db.txs[id].phase.run;
      && Holds(db, RunRow(run.id), id) && run.id in db.state.runs && db.state.runs[run.id] == run
      && GrantFits(db.state, PgGrant(db.state, run, db.txs[id].runner.id, expiresAt, now))
  {
    hide RunsOk, AttemptsOk, LeasesOk, Numbered, HealthKeyed;
    var run := db.txs[id].phase.run;
    assert RunReadCurrent(db, id, db.txs[id].seen[run.id]);
  }

  lemma CommitLeaseWrites(db: Db, id: TxId, expiresAt: Millis, now: Millis, after: Db)
    requires Sound(db) && CommitLease(db, id, expiresAt, now, after)
    ensures GoodWrite(db, after, id)
  {
    hide RunsOk, AttemptsOk, LeasesOk, Numbered, HealthKeyed, Evolves, GrantFits, LeasingReads;
    assert ReadsCurrent(db, id);
    ChosenFits(db, id, expiresAt, now);
    var g := PgGrant(db.state, db.txs[id].phase.run, db.txs[id].runner.id, expiresAt, now);
    GrantFitsKeepsInv(db.state, g);
    GrantEvolves(db.state, g, after.state);
  }

  /** At its commit a completion still passes every check it made on the way. */
  lemma CompletionStillPasses(db: Db, id: TxId)
    requires Inv(db.state) && IsCompleting(db, id) && ReadsCurrent(db, id)
    requires db.txs[id].lease.Some? && db.txs[id].run.Some?
    ensures Preflight(db.state, db.txs[id].p, db.txs[id].now).None?
  {}

  lemma FinishEvolves(s: MemoryState, p: CompleteParams, now: Millis, run: Run, t: MemoryState)
    requires Inv(s) && Finishes(s, p, now, run, t)
    ensures Evolves(s, t)
  {
    hide LeasesOk, Numbered, HealthKeyed;
    assert AttemptOk(s, s.attempts[p.attemptId]);
    assert RunOk(s, s.runs[s.attempts[p.attemptId].runId]);
  }

  /** A requeue is only ever asked for a run with attempts left. */
  lemma DispositionIsDone(attempts: nat, max: nat, p: CompleteParams, health: Option<FunctionHealth>, hash: nat, now: Millis)
    requires p.status.Terminal()
    ensures var d := ComputeDisposition(attempts, max, p.status, p.failureClass, health, hash, now);
      !d.nextStatus.Running? && (d.nextStatus.Queued? ==> attempts < max)
  {}

  /** The rows a completing transaction is about to write are there and are its own. */
  lemma CompletionHoldsItsRows(db: Db, id: TxId)
    requires Inv(db.state) && IsCompleting(db, id) && ReadsCurrent(db, id) && ReadyToCommit(db.state, db.txs[id])
    ensures var tx, s := db.txs[id], db.state;
      && s.attempts[tx.p.attemptId] == tx.attempt && tx.attempt.leaseId == Some(tx.lease.value.id)
      && tx.attempt.runId == tx.run.value.id
      && s.leases[tx.lease.value.id] == tx.lease.value && s.runs[tx.run.value.id] == tx.run.value
      && Holds(db, AttemptRow(tx.p.attemptId), id) && Holds(db, LeaseRow(tx.lease.value.id), id)
      && Holds(db, RunRow(tx.run.value.id), id) && Holds(db, HealthRow(tx.run.value.jobId), id)
      && tx.signal.value.signaled.jobId == tx.run.value.jobId
  {
    hide RunsOk, AttemptsOk, LeasesOk, Numbered, HealthKeyed;
  }

  lemma CommitCompleteFinishes(db: Db, id: TxId, hash: nat)
    requires Inv(db.state) && IsCompleting(db, id) && ReadsCurrent(db, id) && ReadyToCommit(db.state, db.txs[id])
    requires db.txs[id].p.status.Terminal()
    ensures var tx, s := db.txs[id], db.state;
      && var t := PgFinished(s, tx, hash);
         tx.run.value.id in t.runs && Finishes(s, tx.p, tx.now, t.runs[tx.run.value.id], t) && HealthKeyed(t)
  {
    hide RunsOk, AttemptsOk, LeasesOk, Numbered, ComputeDisposition, AfterSignal;
    var tx := db.txs[id];
    CompletionStillPasses(db, id);
    CompletionHoldsItsRows(db, id);
    DispositionIsDone(tx.run.value.attemptCount, tx.run.value.maxAttempts, tx.p, Some(tx.signal.value.signaled), hash, tx.now);
  }

  /** Whatever status a completion reports, its commit writes its own rows only. */
  lemma CommitCompleteSpares(db: Db, id: TxId, hash: nat, after: Db)
    requires Sound(db) && CommitComplete(db, id, hash, after)
    ensures SparesOthers(db, after, id)
  {
    hide RunsOk, AttemptsOk, LeasesOk, Numbered, HealthKeyed, ComputeDisposition, ReadsCurrent;
    OneReads(db, id);
    CompletionHoldsItsRows(db, id);
  }

  lemma CommitCompleteWrites(db: Db, id: TxId, hash: nat, after: Db)
    requires Sound(db) && CommitComplete(db, id, hash, after) && db.txs[id].p.status.Terminal()
    ensures GoodWrite(db, after, id)
  {
    hide RunsOk, AttemptsOk, LeasesOk, Numbered, Evolves, PgFinished, Finishes, SparesOthers;
    OneReads(db, id);
    var tx := db.txs[id];
    CommitCompleteFinishes(db, id, hash);
    var t := PgFinished(db.state, tx, hash);
    FinishKeepsInv(db.state, tx.p, tx.now, t.runs[tx.run.value.id], t);
    FinishEvolves(db.state, tx.p, tx.now, t.runs[tx.run.value.id], t);
    CommitCompleteSpares(db, id, hash, after);
  }

  /** A completion commits whatever status it reports, but it keeps the invariant exactly
      when that status is terminal. */
  lemma PgCompleteKeepsInvExactly(db: Db, id: TxId, hash: nat)
    requires Sound(db) && IsCompleting(db, id) && ReadyToCommit(db.state, db.txs[id])
    ensures Inv(PgFinished(db.state, db.txs[id], hash)) <==> db.txs[id].p.status.Terminal()
  {
    OneReads(db, id);
    var tx := db.txs[id];
    var t := PgFinished(db.state, tx, hash);
    if tx.p.status.Terminal() {
      CommitCompleteFinishes(db, id, hash);
      FinishKeepsInv(db.state, tx.p, tx.now, t.runs[tx.run.value.id], t);
    } else {
      FinishedYetOpen(t, tx.p.attemptId);
    }
  }

  lemma FinishedYetOpen(s: MemoryState, a: Id)
    requires a in s.attempts && s.attempts[a].finishedAt.Some? && !s.attempts[a].status.Terminal()
    ensures !Inv(s)
  {
    if Inv(s) {
      OwnLease(s, a, a);
    }
  }

  /** A completion that reports the attempt as running puts its run back in the queue and
      leaves the attempt running; whichever runner is granted the run next, the run then
      has two running attempts. */
  lemma RunningCompletionDoublesUp(db: Db, id: TxId, hash: nat, w: string, expiresAt: Millis, now: Millis)
    requires Sound(db) && IsCompleting(db, id) && ReadyToCommit(db.state, db.txs[id])
    requires db.txs[id].p.status.AttemptRunning?
    ensures var t, r := PgFinished(db.state, db.txs[id], hash), db.txs[id].run.value.id;
      && t.runs[r].status.Queued? && t.runs[r].id in t.runs
      && var g := PgGrant(t, t.runs[r], w, expiresAt, now);
         var u := AfterGrant(t, g);
         && db.txs[id].p.attemptId != g.attempt.id
         && db.txs[id].p.attemptId in u.attempts && RunsFor(u.attempts[db.txs[id].p.attemptId], r)
         && g.attempt.id in u.attempts && RunsFor(u.attempts[g.attempt.id], r)
  {
    hide RunsOk, AttemptsOk, LeasesOk, Numbered, HealthKeyed, ReadsCurrent;
    OneReads(db, id);
    CompletionHoldsItsRows(db, id);
  }

  /** At its commit a recovery takes the attempts it locked, all of them still running,
      and retries each run by the count that is committed. */
  lemma RecoveryStillTakes(db: Db, id: TxId)
    requires Inv(db.state) && IsRecovering(db, id) && ReadsCurrent(db, id)
    ensures var tx := db.txs[id];
      && (forall a :: a in tx.taken ==> a in db.state.attempts && db.state.attempts[a].status.AttemptRunning?)
      && PgTaken(db.state, tx) == TakeAttempts(db.state, tx.taken, tx.at)
  {
    hide RunsOk, AttemptsOk, LeasesOk, Numbered, HealthKeyed;
    var tx := db.txs[id];
    forall a | a in tx.taken
      ensures a in db.state.attempts && db.state.attempts[a].status.AttemptRunning?
      ensures db.state.attempts[a].runId in tx.lostRuns
    {
      assert TakenHeld(db, id, a, tx.lostRuns);
    }
    forall r | r in db.state.runs
      ensures r in tx.lostRuns <==> RunTaken(db.state, tx.taken, r)
      ensures r in tx.lostRuns ==> tx.lostRuns[r] == db.state.runs[r]
    {
      if r in tx.lostRuns {
        assert RunReadCurrent(db, id, tx.lostRuns[r]) && RunOfTaken(db.state, tx.taken, r);
      }
    }
    assert PgTaken(db.state, tx).runs == TakeAttempts(db.state, tx.taken, tx.at).runs;
  }

  lemma CommitRecoveryWrites(db: Db, id: TxId, after: Db)
    requires Sound(db) && CommitRecovery(db, id, after)
    ensures GoodWrite(db, after, id)
  {
    hide RunsOk, AttemptsOk, LeasesOk, Numbered, Evolves, PgTaken, TakeAttempts;
    assert ReadsCurrent(db, id);
    var tx := db.txs[id];
    RecoveryStillTakes(db, id);
    TakeAttemptsKeepsInv(db.state, tx.taken, tx.at);
    TakeAttemptsEvolves(db.state, tx.taken, tx.at);
    forall row | row in db.locks && db.locks[row] != id
      ensures SameRow(db.state, after.state, row)
    {
      RecoverySparesOthers(db, id, row);
    }
  }

  lemma RecoverySparesOthers(db: Db, id: TxId, row: Row)
    requires IsRecovering(db, id) && ReadsCurrent(db, id) && row in db.locks && db.locks[row] != id
    ensures SameRow(db.state, TakeAttempts(db.state, db.txs[id].taken, db.txs[id].at), row)
  {
    var tx, s := db.txs[id], db.state;
    forall a | a in tx.taken
      ensures TakenHeld(db, id, a, tx.lostRuns)
      ensures RunReadCurrent(db, id, tx.lostRuns[s.attempts[a].runId])
    {
      assert TakenHeld(db, id, a, tx.lostRuns);
    }
  }

  /** Marks and renewals: nothing about the progress of an attempt or a lease. */
  ghost predicate OnlyMarks(s: MemoryState, t: MemoryState) {
    && t == s.(runners := t.runners, attempts := t.attempts, leases := t.leases)
    && (forall w :: w in t.runners ==> t.runners[w].id == w)
    && t.attempts.Keys == s.attempts.Keys && t.leases.Keys == s.leases.Keys
    && (forall a :: a in s.attempts ==>
          && t.attempts[a] == s.attempts[a].(cancelRequestedAt := t.attempts[a].cancelRequestedAt)
          && (s.attempts[a].finishedAt.Some? ==> t.attempts[a] == s.attempts[a]))
    && (forall l :: l in s.leases ==>
          && t.leases[l] == s.leases[l].(expiresAt := t.leases[l].expiresAt, revokeRequestedAt := t.leases[l].revokeRequestedAt)
          && (s.leases[l].releasedAt.Some? ==> t.leases[l] == s.leases[l]))
  }

  lemma MarksKeepInv(s: MemoryState, t: MemoryState)
    requires Inv(s) && OnlyMarks(s, t)
    ensures Inv(t)
  {
    hide LeasesOk, Numbered;
    forall r | r in t.runs
      ensures RunOk(t, t.runs[r])
    {
      assert RunOk(s, s.runs[r]);
    }
    forall a | a in t.attempts
      ensures AttemptOk(t, t.attempts[a])
    {
      assert AttemptOk(s, s.attempts[a]);
    }
    SameShapeKeepsInv(s, t);
  }

  lemma MarksEvolve(s: MemoryState, t: MemoryState)
    requires OnlyMarks(s, t)
    ensures Evolves(s, t)
  {}

  lemma CommitBeatWrites(db: Db, id: TxId, expiresAt: Millis, now: Millis, after: Db)
    requires Sound(db) && CommitBeat(db, id, expiresAt, now, after)
    ensures GoodWrite(db, after, id)
  {
    hide RunsOk, AttemptsOk, LeasesOk, Numbered, HealthKeyed, Evolves;
    assert ReadsCurrent(db, id);
    forall l | l in db.txs[id].renewed
      ensures RenewedHeld(db, id, l)
    {}
    MarksKeepInv(db.state, after.state);
    MarksEvolve(db.state, after.state);
  }

  lemma CommitCancelWrites(db: Db, id: TxId, at: Millis, after: Db)
    requires Sound(db) && CommitCancel(db, id, at, after)
    ensures GoodWrite(db, after, id)
  {
    hide RunsOk, LeasesOk, Numbered, HealthKeyed, Evolves;
    assert ReadsCurrent(db, id);
    var tx := db.txs[id];
    if tx.target.status.Queued? {
      RewriteRunKeepsInv(db.state, tx.target.id, tx.target.(status := Canceled));
      QueuedRunMayEnd(db.state, tx.target.id);
    } else {
      if tx.marked.Some? {
        assert AttemptOk(db.state, db.state.attempts[tx.marked.value.id]);
      }
      MarksKeepInv(db.state, after.state);
      MarksEvolve(db.state, after.state);
    }
  }

  lemma QueuedRunMayEnd(s: MemoryState, r: Id)
    requires Inv(s) && r in s.runs && s.runs[r].status.Queued?
    ensures Evolves(s, s.(runs := s.runs[r := s.runs[r].(status := Canceled)]))
  {
    assert RunOk(s, s.runs[r]);
  }

  /** Single-statement writes. */
  lemma InsertRunWrites(db: Db, run: Run, after: Db, id: TxId)
    requires Sound(db) && InsertRun(db, run, after)
    ensures GoodWrite(db, after, id)
  {
    hide RunsOk, AttemptsOk, LeasesOk, Numbered, HealthKeyed, Evolves;
    AddRunKeepsInv(db.state, run, after.state);
    AddRunEvolves(db.state, run, after.state, 0);
  }

  lemma WriteJobsWrites(db: Db, jobs: map<string, Job>, after: Db, id: TxId)
    requires Sound(db) && WriteJobs(db, jobs, after)
    ensures GoodWrite(db, after, id)
  {
    hide RunsOk, AttemptsOk, LeasesOk, Numbered, Evolves;
    RebindKeepsInv(db.state, after.state);
    RebindEvolves(db.state, after.state, 0);
  }

  // ----- Every step keeps the database sound -----

  lemma CommitIsLocal(db: Db, step: PgStep, after: Db)
    requires PgNext(db, step, after) && step.Commits()
    ensures LocalStep(db, after, step.id) && step.id !in after.txs
  {
    hide LocalStep, PgFinished, PgTaken, PgBeaten, PgCanceled, PgGrant, AfterGrant;
    EndedIsLocal(db, step.id, after.state);
  }

  lemma CommitWrites(db: Db, step: PgStep, after: Db)
    requires Sound(db) && PgNext(db, step, after) && step.Commits() && ReportsTerminal(db, step)
    ensures GoodWrite(db, after, step.id)
  {
    hide Sound, GoodWrite, PgFinished, PgTaken, PgBeaten, PgCanceled, PgGrant, AfterGrant;
    match step
    case CommitLeaseStep(id, expiresAt, now) => CommitLeaseWrites(db, id, expiresAt, now, after);
    case CommitCompleteStep(id, hash) => CommitCompleteWrites(db, id, hash, after);
    case CommitRecoveryStep(id) => CommitRecoveryWrites(db, id, after);
    case CommitBeatStep(id, expiresAt, now) => CommitBeatWrites(db, id, expiresAt, now, after);
    case CommitCancelStep(id, now) => CommitCancelWrites(db, id, now, after);
  }

  lemma CommitSpares(db: Db, step: PgStep, after: Db)
    requires Sound(db) && PgNext(db, step, after) && step.Commits()
    ensures SparesOthers(db, after, step.id)
  {
    hide Sound, SparesOthers, PgFinished, Inv, Evolves;
    match step
    case CommitCompleteStep(id, hash) => CommitCompleteSpares(db, id, hash, after);
    case _ => CommitWrites(db, step, after);
  }

  /** What any step does to the others: nothing. */
  lemma StepSparesOthers(db: Db, step: PgStep, after: Db, k: TxId)
    requires Sound(db) && PgNext(db, step, after) && k in db.txs && step.Actor() != Some(k)
    ensures Undisturbed(db, after, k)
  {
    hide Inv, AllReadsCurrent, PgNext, LocalStep, Evolves, Undisturbed;
    if !step.Writes() {
      QuietStep(db, step, after);
      OthersUndisturbed(db, after, step.id, k);
    } else if step.Commits() {
      CommitIsLocal(db, step, after);
      CommitSpares(db, step, after);
      OthersUndisturbed(db, after, step.id, k);
    } else {
      StatementWrites(db, step, after, k + 1);
      OthersUndisturbed(db, after, k + 1, k);
    }
  }

  lemma StatementWrites(db: Db, step: PgStep, after: Db, id: TxId)
    requires Sound(db) && PgNext(db, step, after) && step.Writes() && !step.Commits()
    ensures GoodWrite(db, after, id) && LocalStep(db, after, id) && after.txs == db.txs && after.locks == db.locks
  {
    hide Inv, AllReadsCurrent, GoodWrite;
    match step
    case InsertRunStep(run) => InsertRunWrites(db, run, after, id);
    case WriteJobsStep(jobs) => WriteJobsWrites(db, jobs, after, id);
  }

  lemma ActorReads(db: Db, step: PgStep, after: Db)
    requires Sound(db) && PgNext(db, step, after) && !step.Writes() && step.id in after.txs
    ensures ReadsCurrent(after, step.id)
  {
    hide Inv, AllReadsCurrent, LeasingReads, CompletingReads, BeatingReads, CancelingReads, Load, IsCandidate, Lost;
    match step
    case RollBackStep(id) =>
    case LockMoreStep(id, row) =>
      MoreLocksUndisturbed(db, id, row);
      OneReads(db, id);
      UndisturbedReads(db, after, id);
    case BeginRecoveryStep(id, _) =>
    case LockLostStep(id, a) => LockLostReads(db, id, a, after);
    case BeginBeatStep(_, _) => BeatingStepReads(db, step, after);
    case RenewStep(_, _) => BeatingStepReads(db, step, after);
    case BeginCompleteStep(_, _) => CompletingStepReads(db, step, after);
    case LockLeaseStep(_, _) => CompletingStepReads(db, step, after);
    case LockRunStep(_) => CompletingStepReads(db, step, after);
    case ReadHealthStep(_) => CompletingStepReads(db, step, after);
    case WriteHealthStep(_) => CompletingStepReads(db, step, after);
    case BeginCancelStep(_, _) => CancelingStepReads(db, step, after);
    case LockRunningStep(_, _) => CancelingStepReads(db, step, after);
    case LockRevokedStep(_) => CancelingStepReads(db, step, after);
    case BeginLeaseStep(id, w) => BeginLeaseReads(db, id, w, after);
    case LockCandidateStep(id, r) =>
      OneReads(db, id);
      CandidateReads(db, after, id, r);
    case ReadJobStep(id, r) =>
      OneReads(db, id);
      ReadJobReads(db, after, id, r);
    case _ => ScanStepReads(db, step, after);
  }

  lemma OneReads(db: Db, id: TxId)
    requires AllReadsCurrent(db) && id in db.txs
    ensures ReadsCurrent(db, id)
  {}

  lemma MoreLocksUndisturbed(db: Db, id: TxId, row: Row)
    requires id in db.txs && row !in db.locks
    ensures Undisturbed(db, db.(locks := db.locks[row := id]), id)
  {}

  lemma StepKeepsLocksOwned(db: Db, step: PgStep, after: Db)
    requires Sound(db) && PgNext(db, step, after)
    ensures LocksOwned(after)
    ensures forall k :: k in after.txs ==> k in db.txs || (!step.Writes() && k == step.id)
    ensures step.Commits() ==> step.id !in after.txs
  {
    hide Inv, AllReadsCurrent, PgNext, Evolves;
    if !step.Writes() {
      QuietStep(db, step, after);
    } else if step.Commits() {
      CommitIsLocal(db, step, after);
    } else {
      StatementWrites(db, step, after, 0);
    }
  }

  lemma StepKeepsStateSound(db: Db, step: PgStep, after: Db)
    requires Sound(db) && PgNext(db, step, after) && ReportsTerminal(db, step)
    ensures Inv(after.state) && Evolves(db.state, after.state)
  {
    hide Inv, AllReadsCurrent, PgNext, LocalStep, Evolves;
    if !step.Writes() {
      QuietStep(db, step, after);
      SelfEvolves(db.state);
    } else if step.Commits() {
      CommitWrites(db, step, after);
    } else {
      StatementWrites(db, step, after, 0);
    }
  }

  /** Whatever step is taken next, no transaction ever acts on a row that has changed since
      it read it. */
  lemma StepKeepsReads(db: Db, step: PgStep, after: Db)
    requires Sound(db) && PgNext(db, step, after)
    ensures AllReadsCurrent(after) && LocksOwned(after)
  {
    hide Inv, PgNext, ReadsCurrent, LocksOwned;
    StepKeepsLocksOwned(db, step, after);
    forall k | k in after.txs
      ensures ReadsCurrent(after, k)
    {
      if !step.Writes() && k == step.id {
        ActorReads(db, step, after);
      } else {
        StepSparesOthers(db, step, after, k);
        UndisturbedReads(db, after, k);
      }
    }
  }

  /** A step keeps the database sound exactly when it is not the commit of a completion
      that reports a status that is not terminal. */
  lemma StepKeepsSoundExactly(db: Db, step: PgStep, after: Db)
    requires Sound(db) && PgNext(db, step, after)
    ensures Sound(after) <==> ReportsTerminal(db, step)
  {
    hide Inv, AllReadsCurrent, LocksOwned, Evolves, PgFinished;
    if ReportsTerminal(db, step) {
      StepKeepsStateSound(db, step, after);
      StepKeepsReads(db, step, after);
    } else {
      PgCompleteKeepsInvExactly(db, step.id, step.hash);
    }
  }

  /** A sound step moves the committed records only forwards. */
  lemma StepKeepsSound(db: Db, step: PgStep, after: Db)
    requires Sound(db) && PgNext(db, step, after) && ReportsTerminal(db, step)
    ensures Sound(after) && Evolves(db.state, after.state)
  {
    hide Inv, AllReadsCurrent, LocksOwned, PgNext, Evolves;
    StepKeepsStateSound(db, step, after);
    StepKeepsReads(db, step, after);
  }
}
