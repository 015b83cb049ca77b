/**
 Function health in the Postgres store: a completion reads its job's health without a
 lock and writes it back with its commit. What an overlap of two completions costs, and
 what holds when the completions of a job do not overlap.
 */
module PgHealth {
  import opened Domain
  import opened RetryPolicy
  import opened Loads
  import opened Transitions
  import opened Invariant
  import opened HealthHistory
  import opened PgProtocol
  import opened PgSafety
  import opened PgCapacity

  // ----- When two records lead to one -----

  function FailureCount(record: Option<FunctionHealth>): nat {
    if record.Some? then record.value.consecutiveInfraFailures else 0
  }

  function SuccessTime(record: Option<FunctionHealth>): Option<Millis> {
    if record.Some? then record.value.lastSuccessAt else None
  }

  function FailureTime(record: Option<FunctionHealth>): Option<Millis> {
    if record.Some? then record.value.lastFailureAt else None
  }

  /** Since when the record has been in the state, or now when it has not been. */
  function InStateSince(record: Option<FunctionHealth>, state: HealthState, now: Millis): Millis {
    if record.Some? && record.value.state == state then record.value.lastChangedAt else now
  }

  /** Two counts that one more failure leads to the same count. */
  predicate CountAlike(x: nat, y: nat) { x == y || (x >= U32_MAX - 1 && y >= U32_MAX - 1) }

  function StateAfterFailure(count: nat): HealthState {
    if count + 1 >= 5 then Down else if count + 1 >= 3 then Degraded else Healthy
  }

  /** No record yet, or the one that stands for nothing having happened, entered now. */
  predicate Blank(record: Option<FunctionHealth>, jobId: string, now: Millis) {
    record.None? || record == Some(FunctionHealth(jobId, Healthy, 0, None, now, None, None))
  }

  /** The fields that a completion carries over from the record it read are the same in
      the committed one: after a success the last failure and since when it was healthy;
      after an infrastructure failure the count, the last success and since when it was
      in the state to come; otherwise the whole record. */
  predicate ReadsAlike(read: Option<FunctionHealth>, committed: Option<FunctionHealth>, jobId: string,
                       failure: Option<FailureClass>, status: AttemptStatus, now: Millis)
  {
    if status.AttemptSucceeded? then
      FailureTime(read) == FailureTime(committed) && InStateSince(read, Healthy, now) == InStateSince(committed, Healthy, now)
    else if IsInfrastructureFailure(failure) then
      && CountAlike(FailureCount(read), FailureCount(committed)) && SuccessTime(read) == SuccessTime(committed)
      && var state := StateAfterFailure(FailureCount(read));
         InStateSince(read, state, now) == InStateSince(committed, state, now)
    else read == committed || (Blank(read, jobId, now) && Blank(committed, jobId, now))
  }

  lemma LeadsAlikeExactly(read: Option<FunctionHealth>, committed: Option<FunctionHealth>, jobId: string,
                          failure: Option<FailureClass>, status: AttemptStatus, now: Millis)
    ensures AfterSignal(read, jobId, failure, status, now) == AfterSignal(committed, jobId, failure, status, now)
      <==> ReadsAlike(read, committed, jobId, failure, status, now)
  {}

  // ----- A commit as the in-memory call -----

  /** At the commit of a completion every check it made still passes, and the commit is
      what the in-memory call does to the committed records exactly when the committed
      health agrees with the health it read on the fields it carries over. */
  lemma PgCompletionIsAtomic(tr: PgTrace, i: nat)
    requires IsPgTrace(tr) && i < |tr.steps| && AllTerminal(tr, i + 1) && tr.steps[i].CommitCompleteStep?
    ensures var db, step := tr.dbs[i], tr.steps[i];
      && IsCompleting(db, step.id) && ReadyToCommit(db.state, db.txs[step.id])
      && var tx, s := db.txs[step.id], db.state;
         && Preflight(s, tx.p, tx.now).None?
         && tx.run.value.jobId in s.jobs
         && (Parses(s.jobs[tx.run.value.jobId].rateLimitSpec) ==>
               (tr.dbs[i + 1].state == Complete(s, tx.p, step.hash, tx.now).next <==>
                  ReadsAlike(tx.signal.value.read, HealthOf(s, tx.run.value.jobId), tx.run.value.jobId,
                             tx.p.failureClass, tx.p.status, tx.now)))
  {
    hide Inv, PgNext, ReadsCurrent, Complete, ReadsAlike;
    PgReachableIsSound(tr, i);
    assert PgStepAt(tr, i) && TerminalAt(tr, i);
    var db, step := tr.dbs[i], tr.steps[i];
    CommitCompleteShape(db, step.id, step.hash, tr.dbs[i + 1]);
    OneReads(db, step.id);
    CompletionStillPasses(db, step.id);
    PgCompletesAsCalled(db, step.id, step.hash);
  }

  lemma CommitCompleteShape(db: Db, id: TxId, hash: nat, after: Db)
    requires PgNext(db, CommitCompleteStep(id, hash), after)
    ensures IsCompleting(db, id) && ReadyToCommit(db.state, db.txs[id])
    ensures after == Ended(db, id, PgFinished(db.state, db.txs[id], hash))
  {
    hide PgFinished;
  }

  lemma PgCompletesAsCalled(db: Db, id: TxId, hash: nat)
    requires Sound(db) && IsCompleting(db, id) && ReadyToCommit(db.state, db.txs[id])
    requires db.txs[id].p.status.Terminal()
    ensures var tx, s := db.txs[id], db.state;
      && tx.run.value.jobId in s.jobs
      && (Parses(s.jobs[tx.run.value.jobId].rateLimitSpec) ==>
            (PgFinished(s, tx, hash) == Complete(s, tx.p, hash, tx.now).next <==>
               ReadsAlike(tx.signal.value.read, HealthOf(s, tx.run.value.jobId), tx.run.value.jobId,
                          tx.p.failureClass, tx.p.status, tx.now)))
  {
    hide AttemptsOk, LeasesOk, Numbered, HealthKeyed, ComputeDisposition, AfterSignal, ReadsAlike;
    OneReads(db, id);
    CompletionStillPasses(db, id);
    CompletionHoldsItsRows(db, id);
    var tx, s := db.txs[id], db.state;
    var jobId := tx.run.value.jobId;
    assert RunOk(s, s.runs[tx.run.value.id]);
    LeadsAlikeExactly(tx.signal.value.read, HealthOf(s, jobId), jobId, tx.p.failureClass, tx.p.status, tx.now);
    var t, u := PgFinished(s, tx, hash), Complete(s, tx.p, hash, tx.now).next;
    if Parses(s.jobs[jobId].rateLimitSpec) && t.health[jobId] != AfterSignal(HealthOf(s, jobId), jobId, tx.p.failureClass, tx.p.status, tx.now) {
      assert t.health[jobId] != u.health[jobId];
    }
  }

  // ----- Only commits of completions change health -----

  /** The step commits a completion of the job. */
  predicate CommitsFor(db: Db, step: PgStep, jobId: string) {
    && step.CommitCompleteStep? && IsCompleting(db, step.id) && db.txs[step.id].run.Some?
    && db.txs[step.id].run.value.jobId == jobId
  }

  lemma HealthChangesByCommit(db: Db, step: PgStep, after: Db, jobId: string)
    requires LocksOwned(db) && PgNext(db, step, after) && !CommitsFor(db, step, jobId)
    ensures HealthOf(after.state, jobId) == HealthOf(db.state, jobId)
  {
    hide PgNext, LocksOwned, PgFinished;
    if !step.Writes() {
      QuietStep(db, step, after);
    } else if step.CommitCompleteStep? {
      CommitCompleteShape(db, step.id, step.hash, after);
      FinishedHealth(db.state, db.txs[step.id], step.hash);
    } else {
      OtherWritesKeepHealth(db, step, after);
    }
  }

  lemma FinishedHealth(s: MemoryState, tx: Tx, hash: nat)
    requires ReadyToCommit(s, tx)
    ensures PgFinished(s, tx, hash).health == s.health[tx.run.value.jobId := tx.signal.value.signaled]
  {
    hide ComputeDisposition;
  }

  lemma OtherWritesKeepHealth(db: Db, step: PgStep, after: Db)
    requires PgNext(db, step, after) && step.Writes() && !step.CommitCompleteStep?
    ensures after.state.health == db.state.health
  {
    hide BeginLease, CountSlots, QueryCandidates, LockCandidate, ReadJob, CheckCpu, CheckMemory, PassOver, BeginComplete,
      LockLease, LockRun, ReadHealth, WriteHealth, CommitComplete, BeginRecovery, LockLost, BeginBeat, Renew, BeginCancel,
      LockRunning, LockRevoked, LockMore, RollBack;
  }

  /** No completion of the job commits in the steps m .. k - 1. */
  ghost predicate NoCommitBetween(tr: PgTrace, m: nat, k: nat, jobId: string)
    requires IsPgTrace(tr)
  {
    forall n {:trigger tr.steps[n]} :: m <= n < k && n < |tr.steps| ==> !CommitsFor(tr.dbs[n], tr.steps[n], jobId)
  }

  lemma {:induction false} HealthStaysBetween(tr: PgTrace, m: nat, k: nat, jobId: string)
    requires IsPgTrace(tr) && m <= k < |tr.dbs| && AllTerminal(tr, k) && NoCommitBetween(tr, m, k, jobId)
    ensures HealthOf(tr.dbs[k].state, jobId) == HealthOf(tr.dbs[m].state, jobId)
    decreases k
  {
    if m < k {
      hide PgNext, Inv, AllReadsCurrent, HealthOf;
      assert forall n :: 0 <= n < k - 1 ==> TerminalAt(tr, n);
      HealthStaysBetween(tr, m, k - 1, jobId);
      PgReachableIsSound(tr, k - 1);
      assert PgStepAt(tr, k - 1);
      assert !CommitsFor(tr.dbs[k - 1], tr.steps[k - 1], jobId);
      HealthChangesByCommit(tr.dbs[k - 1], tr.steps[k - 1], tr.dbs[k], jobId);
    }
  }

  // ----- Where the health of a completion was read -----

  predicate HasSignal(db: Db, id: TxId) { IsCompleting(db, id) && db.txs[id].run.Some? && db.txs[id].signal.Some? }

  /** The open completion is the same call, at the same signal. */
  predicate SameSignal(db: Db, after: Db, id: TxId)
    requires HasSignal(db, id) && HasSignal(after, id)
  {
    var x, y := db.txs[id], after.txs[id];
    && x.p == y.p && x.now == y.now && x.run == y.run
    && x.signal.value.read == y.signal.value.read && x.signal.value.signaled == y.signal.value.signaled
  }

  /** A completion has a signal only from its own read on. */
  lemma SignalComesFromRead(db: Db, step: PgStep, after: Db, id: TxId)
    requires Sound(db) && PgNext(db, step, after) && HasSignal(after, id) && step != ReadHealthStep(id)
    ensures HasSignal(db, id) && SameSignal(db, after, id)
  {
    if step.Actor() == Some(id) {
      ActorKeepsSignal(db, step, after);
    } else {
      hide Inv, AllReadsCurrent, PgNext;
      StepKeepsLocksOwned(db, step, after);
      StepSparesOthers(db, step, after, id);
    }
  }

  lemma ActorKeepsSignal(db: Db, step: PgStep, after: Db)
    requires PgNext(db, step, after) && step.Actor().Some? && !step.ReadHealthStep? && HasSignal(after, step.id)
    requires step.id in db.txs ==> ReadsCurrent(db, step.id)
    ensures HasSignal(db, step.id) && SameSignal(db, after, step.id)
  {
    hide Load, Lost, IsCandidate, AfterSignal, PgFinished, PgTaken, PgBeaten, PgCanceled, PgGrant, AfterGrant, AttemptPasses;
  }

  /** The last read of the completion's health before step `k` is step `m`. */
  ghost predicate ReadAt(tr: PgTrace, m: nat, k: nat, id: TxId)
    requires IsPgTrace(tr)
  {
    && m < k < |tr.dbs| && tr.steps[m] == ReadHealthStep(id)
    && forall n {:trigger tr.steps[n]} :: m < n < k ==> tr.steps[n] != ReadHealthStep(id)
  }

  /** An open signal was read by a step before, and is what that step read. */
  lemma {:induction false} SignalWasRead(tr: PgTrace, k: nat, id: TxId) returns (m: nat)
    requires IsPgTrace(tr) && k < |tr.dbs| && AllTerminal(tr, k) && HasSignal(tr.dbs[k], id)
    ensures ReadAt(tr, m, k, id)
    ensures var tx := tr.dbs[k].txs[id]; tx.signal.value.read == HealthOf(tr.dbs[m].state, tx.run.value.jobId)
    decreases k
  {
    hide PgNext, Inv, AllReadsCurrent, HealthOf;
    m := 0;
    if k == 0 {
      assert false;
    } else {
      assert forall n :: 0 <= n < k - 1 ==> TerminalAt(tr, n);
      PgReachableIsSound(tr, k - 1);
      assert PgStepAt(tr, k - 1);
      if tr.steps[k - 1] == ReadHealthStep(id) {
        m := k - 1;
        ReadHealthReads(tr.dbs[k - 1], id, tr.dbs[k]);
      } else {
        SignalComesFromRead(tr.dbs[k - 1], tr.steps[k - 1], tr.dbs[k], id);
        m := SignalWasRead(tr, k - 1, id);
      }
    }
  }

  lemma ReadHealthReads(db: Db, id: TxId, after: Db)
    requires PgNext(db, ReadHealthStep(id), after)
    ensures HasSignal(after, id)
    ensures var tx := after.txs[id]; tx.signal.value.read == HealthOf(db.state, tx.run.value.jobId)
  {}

  // ----- Completions of one job that overlap -----

  predicate ReportsInfraFailure(tx: Tx)
    requires tx.Completing?
  {
    tx.p.status.Terminal() && !tx.p.status.AttemptSucceeded? && IsInfrastructureFailure(tx.p.failureClass)
  }

  /** Two completions of one job, both reporting an infrastructure failure, both having read
      the health there is: the first commits, then the other writes and commits, and of
      the two failures one is counted. */
  lemma OverlapLosesFailure(db0: Db, i: TxId, k: TxId, h: nat, g: nat, db1: Db, db2: Db, db3: Db)
    requires Sound(db0) && i != k && HasSignal(db0, i) && HasSignal(db0, k)
    requires var jobId := db0.txs[i].run.value.jobId;
      && db0.txs[k].run.value.jobId == jobId
      && db0.txs[i].signal.value.read == HealthOf(db0.state, jobId) == db0.txs[k].signal.value.read
    requires ReportsInfraFailure(db0.txs[i]) && ReportsInfraFailure(db0.txs[k])
    requires PgNext(db0, CommitCompleteStep(i, h), db1) && PgNext(db1, WriteHealthStep(k), db2)
    requires PgNext(db2, CommitCompleteStep(k, g), db3)
    ensures var jobId := db0.txs[i].run.value.jobId;
      FailureCount(HealthOf(db3.state, jobId)) == SatAdd32(FailureCount(HealthOf(db0.state, jobId)), 1)
  {
    OneReads(db0, i);
    OneReads(db0, k);
    StepSparesOthers(db0, CommitCompleteStep(i, h), db1, k);
    WriteHealthKeeps(db1, k, db2);
    CommitWritesSignal(db2, k, g, db3);
  }

  lemma WriteHealthKeeps(db: Db, id: TxId, after: Db)
    requires PgNext(db, WriteHealthStep(id), after)
    ensures HasSignal(db, id) && HasSignal(after, id) && SameSignal(db, after, id)
  {}

  lemma CommitWritesSignal(db: Db, id: TxId, hash: nat, after: Db)
    requires PgNext(db, CommitCompleteStep(id, hash), after)
    ensures HasSignal(db, id)
    ensures var tx := db.txs[id]; HealthOf(after.state, tx.run.value.jobId) == Some(tx.signal.value.signaled)
  {
    hide ComputeDisposition, AfterSignal;
    CommitCompleteShape(db, id, hash, after);
  }

  lemma HealthCountExactly(read: Option<FunctionHealth>, committed: Option<FunctionHealth>, jobId: string,
                           failure: Option<FailureClass>, status: AttemptStatus, now: Millis)
    ensures AfterSignal(read, jobId, failure, status, now).consecutiveInfraFailures
            == AfterSignal(committed, jobId, failure, status, now).consecutiveInfraFailures
      <==>
        || status.AttemptSucceeded?
        || FailureCount(read) == FailureCount(committed)
        || (IsInfrastructureFailure(failure) && CountAlike(FailureCount(read), FailureCount(committed)))
  {}

  /** The counter that a completion leaves behind is the one that the committed health asks
      for exactly when it reports a success, or the count it read is still the committed
      one, or both are saturated. */
  lemma CommittedCountExactly(db: Db, id: TxId, hash: nat, after: Db)
    requires Sound(db) && PgNext(db, CommitCompleteStep(id, hash), after)
    ensures HasSignal(db, id)
    ensures var tx := db.txs[id];
      var jobId, read := tx.run.value.jobId, tx.signal.value.read;
      var committed := HealthOf(db.state, jobId);
      FailureCount(HealthOf(after.state, jobId))
        == AfterSignal(committed, jobId, tx.p.failureClass, tx.p.status, tx.now).consecutiveInfraFailures
      <==>
        || tx.p.status.AttemptSucceeded?
        || FailureCount(read) == FailureCount(committed)
        || (IsInfrastructureFailure(tx.p.failureClass) && CountAlike(FailureCount(read), FailureCount(committed)))
  {
    hide Inv, AllReadsCurrent, PgNext, AfterSignal, HealthOf;
    CommitWritesSignal(db, id, hash, after);
    OneReads(db, id);
    SignalIsMeant(db, id);
    var tx := db.txs[id];
    HealthCountExactly(tx.signal.value.read, HealthOf(db.state, tx.run.value.jobId), tx.run.value.jobId,
                       tx.p.failureClass, tx.p.status, tx.now);
  }

  // ----- Completions of one job that do not overlap -----

  /** If step `k` commits a completion of the job, no other one committed since it read the
      job's health. */
  ghost predicate ReadLast(tr: PgTrace, k: nat, jobId: string)
    requires IsPgTrace(tr)
  {
    k < |tr.steps| && CommitsFor(tr.dbs[k], tr.steps[k], jobId) ==>
      forall m: nat :: ReadAt(tr, m, k, tr.steps[k].id) ==> NoCommitBetween(tr, m, k, jobId)
  }

  /** A completion that read its job's health after every other commit for the job is the
      in-memory call, whatever else interleaves. */
  lemma PgLoneCompletionIsTheCall(tr: PgTrace, k: nat, jobId: string)
    requires IsPgTrace(tr) && k < |tr.steps| && AllTerminal(tr, k + 1)
    requires CommitsFor(tr.dbs[k], tr.steps[k], jobId) && ReadLast(tr, k, jobId)
    ensures var db, step := tr.dbs[k], tr.steps[k];
      && jobId in db.state.jobs
      && db.txs[step.id].signal.Some? && db.txs[step.id].signal.value.read == HealthOf(db.state, jobId)
      && (Parses(db.state.jobs[jobId].rateLimitSpec) ==>
            tr.dbs[k + 1].state == Complete(db.state, db.txs[step.id].p, step.hash, db.txs[step.id].now).next)
  {
    hide PgNext, Inv, AllReadsCurrent, HealthOf, Complete, AfterSignal;
    assert forall n :: 0 <= n < k ==> TerminalAt(tr, n);
    PgCompletionIsAtomic(tr, k);
    var m := SignalWasRead(tr, k, tr.steps[k].id);
    assert ReadAt(tr, m, k, tr.steps[k].id);
    HealthStaysBetween(tr, m, k, jobId);
  }

  /** The signal that step `k` commits for the job. */
  function PgSignalAt(db: Db, step: PgStep, jobId: string): Option<Signal> {
    if CommitsFor(db, step, jobId) then
      var tx := db.txs[step.id];
      Some(Signal(tx.p.status, tx.p.failureClass, tx.now))
    else None
  }

  /** The completions of the job in the order of their commits. */
  ghost function PgSignals(tr: PgTrace, jobId: string, i: nat): seq<Signal>
    requires IsPgTrace(tr) && i < |tr.dbs|
  {
    if i == 0 then []
    else
      var before := PgSignals(tr, jobId, i - 1);
      match PgSignalAt(tr.dbs[i - 1], tr.steps[i - 1], jobId)
      case None => before
      case Some(signal) => before + [signal]
  }

  /** As long as the completions of a job do not overlap, its health record tells them all,
      in the order of their commits: the counter is the infrastructure failures since the
      last success, the state its threshold, and the hold ends thirty seconds after the
      last such failure. */
  lemma {:induction false} PgHealthTellsTheHistory(tr: PgTrace, jobId: string, i: nat)
    requires IsPgTrace(tr) && i < |tr.dbs| && AllTerminal(tr, i)
    requires forall k {:trigger ReadLast(tr, k, jobId)} :: 0 <= k < i ==> ReadLast(tr, k, jobId)
    ensures Tells(HealthOf(tr.dbs[i].state, jobId), jobId, PgSignals(tr, jobId, i))
  {
    if i > 0 {
      hide PgNext, IsPgTrace, HealthOf, Tells, ReadLast, PgSignals, CommitsFor;
      assert forall n :: 0 <= n < i - 1 ==> TerminalAt(tr, n);
      PgHealthTellsTheHistory(tr, jobId, i - 1);
      assert ReadLast(tr, i - 1, jobId);
      NextPgSignalTells(tr, jobId, i - 1);
    } else {
      assert HealthOf(EMPTY, jobId) == None;
    }
  }

  lemma NextPgSignalTells(tr: PgTrace, jobId: string, k: nat)
    requires IsPgTrace(tr) && k < |tr.steps| && AllTerminal(tr, k + 1) && ReadLast(tr, k, jobId)
    requires Tells(HealthOf(tr.dbs[k].state, jobId), jobId, PgSignals(tr, jobId, k))
    ensures Tells(HealthOf(tr.dbs[k + 1].state, jobId), jobId, PgSignals(tr, jobId, k + 1))
  {
    hide PgNext, Inv, AllReadsCurrent, HealthOf, Tells, AfterSignal, ReadLast;
    assert forall n :: 0 <= n < k ==> TerminalAt(tr, n);
    PgReachableIsSound(tr, k);
    assert PgStepAt(tr, k);
    if CommitsFor(tr.dbs[k], tr.steps[k], jobId) {
      PgLoneCompletionIsTheCall(tr, k, jobId);
      CommitTells(tr.dbs[k], tr.steps[k], tr.dbs[k + 1], jobId, PgSignals(tr, jobId, k));
    } else {
      HealthChangesByCommit(tr.dbs[k], tr.steps[k], tr.dbs[k + 1], jobId);
    }
  }

  lemma CommitTells(db: Db, step: PgStep, after: Db, jobId: string, signals: seq<Signal>)
    requires Sound(db) && PgNext(db, step, after) && CommitsFor(db, step, jobId)
    requires db.txs[step.id].signal.Some? && db.txs[step.id].signal.value.read == HealthOf(db.state, jobId)
    requires Tells(HealthOf(db.state, jobId), jobId, signals)
    ensures Tells(HealthOf(after.state, jobId), jobId, signals + [PgSignalAt(db, step, jobId).value])
  {
    hide Inv, AllReadsCurrent, PgNext, Tells, AfterSignal;
    OneReads(db, step.id);
    var signal := PgSignalAt(db, step, jobId).value;
    CommitWritesSignal(db, step.id, step.hash, after);
    SignalIsMeant(db, step.id);
    NextSignalTells(HealthOf(db.state, jobId), jobId, signals, signal);
  }

  lemma SignalIsMeant(db: Db, id: TxId)
    requires HasSignal(db, id) && ReadsCurrent(db, id)
    ensures SignalMeant(db.txs[id])
  {}
}
