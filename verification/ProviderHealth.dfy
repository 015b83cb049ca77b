/**
 Health of the providers that jobs depend on, fed by two writers: the store, when a run
 reports how its requests went, and the scheduler's probes.
 */
module ProviderHealth {
  import opened Domain

  const MAX_SCORE: int := 10
  const DOWN_SCORE_THRESHOLD: int := 3
  const I32_MIN: int := -0x8000_0000

  datatype ProviderRecord = ProviderRecord(
    state: HealthState,
    lastChangedAt: Millis,
    lastSuccessAt: Option<Millis>,
    lastFailureAt: Option<Millis>,
    degradedScore: int,
    downScore: int)

  /** `saturating_score`, and the clamp the store writes out. */
  function SaturatingScore(score: int): int {
    if score < 0 then 0 else if score > MAX_SCORE then MAX_SCORE else score
  }

  /** `i32::saturating_sub(2)`. */
  function LowerScore(score: int): int { if score - 2 < I32_MIN then I32_MIN else score - 2 }

  function DownScoreOf(previous: Option<ProviderRecord>): int {
    if previous.Some? then previous.value.downScore else 0
  }

  function DegradedScoreOf(previous: Option<ProviderRecord>): int {
    if previous.Some? then previous.value.degradedScore else 0
  }

  function LastFailureOf(previous: Option<ProviderRecord>): Option<Millis> {
    if previous.Some? then previous.value.lastFailureAt else None
  }

  function LastSuccessOf(previous: Option<ProviderRecord>): Option<Millis> {
    if previous.Some? then previous.value.lastSuccessAt else None
  }

  function FailureState(downScore: int): HealthState {
    if downScore >= DOWN_SCORE_THRESHOLD then Down else Degraded
  }

  /** `apply_provider_signal_locked` on one provider: a request went well or failed. */
  function AfterRequest(previous: Option<ProviderRecord>, success: bool, now: Millis): ProviderRecord {
    var down := if success then 0 else SaturatingScore(DownScoreOf(previous) + 1);
    var state := if success then Healthy else FailureState(down);
    var changedAt := if previous.Some? && previous.value.state == state then previous.value.lastChangedAt else now;
    if success then
      ProviderRecord(state, changedAt, Some(now), LastFailureOf(previous),
                     if previous.Some? then LowerScore(previous.value.degradedScore) else 0, down)
    else
      ProviderRecord(state, changedAt, LastSuccessOf(previous), Some(now),
                     SaturatingScore(DegradedScoreOf(previous) + 1), down)
  }

  /** `next_health_params`: a probe may also succeed, but slowly. */
  function AfterProbe(previous: Option<ProviderRecord>, success: bool, latencyMs: nat, degradedLatencyMs: nat, now: Millis)
    : ProviderRecord
  {
    var previousState := if previous.Some? then previous.value.state else Healthy;
    var previousChangedAt := if previous.Some? then previous.value.lastChangedAt else now;
    var (state, successAt, failureAt, degraded, down) :=
      if success && latencyMs > degradedLatencyMs then
        (Degraded, Some(now), LastFailureOf(previous), SaturatingScore(DegradedScoreOf(previous) + 1), 0)
      else if success then
        (Healthy, Some(now), LastFailureOf(previous), LowerScore(DegradedScoreOf(previous)), 0)
      else
        var score := SaturatingScore(DownScoreOf(previous) + 1);
        (FailureState(score), LastSuccessOf(previous), Some(now), SaturatingScore(DegradedScoreOf(previous) + 1), score);
    ProviderRecord(state, if state == previousState then previousChangedAt else now, successAt, failureAt, degraded, down)
  }

  // ----- Histories -----

  /** One check of a provider, whoever made it. */
  datatype Check =
    | Request(success: bool, at: Millis)
    | Probe(success: bool, latencyMs: nat, degradedLatencyMs: nat, at: Millis)
  {
    predicate Slow() { Probe? && success && latencyMs > degradedLatencyMs }
  }

  function AfterCheck(previous: Option<ProviderRecord>, check: Check): ProviderRecord {
    match check
    case Request(success, at) => AfterRequest(previous, success, at)
    case Probe(success, latencyMs, degradedLatencyMs, at) => AfterProbe(previous, success, latencyMs, degradedLatencyMs, at)
  }

  /** The record after any mix of requests and probes, each applied to the record left by
      the one before. */
  function RecordAfter(checks: seq<Check>): Option<ProviderRecord> {
    if checks == [] then None
    else Some(AfterCheck(RecordAfter(checks[..|checks| - 1]), checks[|checks| - 1]))
  }

  /** The store's table: providers by id, found by their slug. Whatever calls it has
      served, a provider's record is the one its checks so far lead to: each call reads and
      replaces the record in one go. */
  class ProviderTable {
    var slugs: map<string, string>
    var health: map<string, ProviderRecord>
    ghost var history: map<string, seq<Check>>

    ghost predicate Valid()
      reads this
    {
      forall id :: RecordAfter(HistoryOf(id)) == HealthOf(id)
    }

    ghost function HistoryOf(id: string): seq<Check>
      reads this
    {
      if id in history then history[id] else []
    }

    function HealthOf(id: string): Option<ProviderRecord>
      reads this
    {
      if id in health then Some(health[id]) else None
    }

    constructor ()
      ensures Valid() && slugs == map[] && health == map[] && history == map[]
    {
      slugs, health, history := map[], map[], map[];
    }

    /** A slug nobody has changes nothing. */
    method ApplySignal(slug: string, success: bool, now: Millis) returns (ghost target: Option<string>)
      requires Valid()
      modifies this`health, this`history
      ensures Valid()
      ensures match target
              case None => slug !in slugs.Values && health == old(health) && history == old(history)
              case Some(id) =>
                && id in slugs && slugs[id] == slug
                && history == old(history)[id := old(HistoryOf(id)) + [Request(success, now)]]
                && health == old(health)[id := AfterRequest(old(HealthOf(id)), success, now)]
    {
      if slug !in slugs.Values {
        return None;
      }
      var id :| id in slugs && slugs[id] == slug;
      hide RecordAfter;
      RecordAfterOne(HistoryOf(id), Request(success, now));
      health, history := health[id := AfterRequest(HealthOf(id), success, now)],
                         history[id := HistoryOf(id) + [Request(success, now)]];
      assert HistoryOf(id) == old(HistoryOf(id)) + [Request(success, now)];
      assert forall i :: i != id ==> HistoryOf(i) == old(HistoryOf(i)) && HealthOf(i) == old(HealthOf(i));
      target := Some(id);
    }

    method ApplyProbe(id: string, success: bool, latencyMs: nat, degradedLatencyMs: nat, now: Millis) returns (found: bool)
      requires Valid()
      modifies this`health, this`history
      ensures Valid() && (found <==> id in slugs)
      ensures if found then
                && history == old(history)[id := old(HistoryOf(id)) + [Probe(success, latencyMs, degradedLatencyMs, now)]]
                && health == old(health)[id := AfterProbe(old(HealthOf(id)), success, latencyMs, degradedLatencyMs, now)]
              else history == old(history) && health == old(health)
    {
      found := id in slugs;
      if found {
        hide RecordAfter;
        ghost var probe := Probe(success, latencyMs, degradedLatencyMs, now);
        RecordAfterOne(HistoryOf(id), probe);
        health, history := health[id := AfterProbe(HealthOf(id), success, latencyMs, degradedLatencyMs, now)],
                           history[id := HistoryOf(id) + [probe]];
        assert HistoryOf(id) == old(HistoryOf(id)) + [probe];
        assert forall i :: i != id ==> HistoryOf(i) == old(HistoryOf(i)) && HealthOf(i) == old(HealthOf(i));
      }
    }
  }

  lemma RecordAfterOne(checks: seq<Check>, check: Check)
    ensures RecordAfter(checks + [check]) == Some(AfterCheck(RecordAfter(checks), check))
  {
    assert (checks + [check])[..|checks|] == checks;
  }

  /** How many checks at the end of the history failed in a row. */
  function FailuresSinceSuccess(checks: seq<Check>): (n: nat)
    ensures n <= |checks|
    ensures forall i :: |checks| - n <= i < |checks| ==> !checks[i].success
    ensures n < |checks| ==> checks[|checks| - n - 1].success
  {
    if checks == [] || checks[|checks| - 1].success then 0 else 1 + FailuresSinceSuccess(checks[..|checks| - 1])
  }

  /** The state a history means. */
  function StateOf(checks: seq<Check>): HealthState {
    var failures := FailuresSinceSuccess(checks);
    if failures >= 3 then Down
    else if failures >= 1 || (checks != [] && checks[|checks| - 1].Slow()) then Degraded
    else Healthy
  }

  /** Check `k` is the last one that changed the state; the first check always does. */
  predicate IsLastChange(checks: seq<Check>, k: int) {
    && 0 <= k < |checks|
    && (k == 0 || StateOf(checks[..k + 1]) != StateOf(checks[..k]))
    && forall j :: k < j < |checks| ==> StateOf(checks[..j + 1]) == StateOf(checks[..j])
  }

  ghost predicate LastTime(checks: seq<Check>, success: bool, at: Option<Millis>) {
    match at
    case None => forall i :: 0 <= i < |checks| ==> checks[i].success != success
    case Some(t) =>
      exists k :: 0 <= k < |checks| && checks[k].success == success && checks[k].at == t
                  && forall i :: k < i < |checks| ==> checks[i].success != success
  }

  /** However requests and probes mix, the record tells the history: the down score is
      the failures since the last success, up to ten; the provider is Down exactly from
      the third on, and Degraded exactly below that or after a slow probe; the time of
      the last change is that of the last check that changed the state; and the degraded
      score never exceeds ten. */
  lemma {:induction false} RecordTellsHistory(checks: seq<Check>)
    requires checks != []
    ensures RecordAfter(checks).Some?
    ensures var h, failures := RecordAfter(checks).value, FailuresSinceSuccess(checks);
      && h.downScore == (if failures < 10 then failures else 10)
      && h.state == StateOf(checks)
      && (h.state.Down? <==> h.downScore >= 3)
      && (exists k :: IsLastChange(checks, k) && h.lastChangedAt == checks[k].at)
      && LastTime(checks, true, h.lastSuccessAt) && LastTime(checks, false, h.lastFailureAt)
      && h.degradedScore <= 10
    decreases |checks|
  {
    var init, last := checks[..|checks| - 1], checks[|checks| - 1];
    assert checks[..|checks|] == checks;
    if init == [] {
      assert FailuresSinceSuccess(init) == 0;
      assert IsLastChange(checks, 0);
    } else {
      RecordTellsHistory(init);
      ChangeCarriesOver(checks);
      TimesCarryOver(checks, RecordAfter(init).value.lastSuccessAt, true);
      TimesCarryOver(checks, RecordAfter(init).value.lastFailureAt, false);
    }
  }

  lemma ChangeCarriesOver(checks: seq<Check>)
    requires |checks| >= 2
    ensures var init := checks[..|checks| - 1];
      && (StateOf(checks) != StateOf(init) ==> IsLastChange(checks, |checks| - 1))
      && forall k :: StateOf(checks) == StateOf(init) && IsLastChange(init, k) ==> IsLastChange(checks, k)
  {
    var init := checks[..|checks| - 1];
    assert checks[..|checks|] == checks;
    assert forall j :: 0 <= j < |checks| ==> init[..j] == checks[..j];
  }

  lemma TimesCarryOver(checks: seq<Check>, at: Option<Millis>, success: bool)
    requires |checks| >= 2 && LastTime(checks[..|checks| - 1], success, at)
    ensures var last := checks[|checks| - 1];
      LastTime(checks, success, if last.success == success then Some(last.at) else at)
  {
    var init := checks[..|checks| - 1];
    assert forall i :: 0 <= i < |init| ==> init[i] == checks[i];
  }

  /** The degraded score can fall below zero: each good check takes two from it. */
  lemma DegradedScoreCanGoNegative(t: Millis)
    ensures RecordAfter([Request(true, t), Request(true, t)]).value.degradedScore == -2
  {
    var one, two := [Request(true, t)], [Request(true, t), Request(true, t)];
    assert one[..0] == [] && two[..1] == one;
    assert RecordAfter(one) == Some(AfterRequest(None, true, t));
    assert RecordAfter(two) == Some(AfterRequest(RecordAfter(one), true, t));
  }

  /** Failures and slow probes raise the degraded score by one each, up to ten; good checks
      after them take off two each. */
  lemma {:induction false} DegradedScoreCounts(bad: seq<Check>, good: seq<Check>)
    requires bad != [] && (forall i :: 0 <= i < |bad| ==> !bad[i].success || bad[i].Slow())
    requires (forall i :: 0 <= i < |good| ==> good[i].success && !good[i].Slow()) && 2 * |good| <= 2_000_000_000
    ensures DegradedScoreOf(RecordAfter(bad + good)) == (if |bad| < 10 then |bad| else 10) - 2 * |good|
    decreases |bad| + |good|
  {
    hide AfterCheck;
    if good != [] {
      var init, last := good[..|good| - 1], good[|good| - 1];
      DegradedScoreCounts(bad, init);
      assert bad + good == bad + init + [last];
      RecordAfterOne(bad + init, last);
      CheckMovesScore(RecordAfter(bad + init), last);
    } else {
      var init, last := bad[..|bad| - 1], bad[|bad| - 1];
      assert bad + good == init + [last] && init + [] == init;
      RecordAfterOne(init, last);
      if init != [] { DegradedScoreCounts(init, []); }
      CheckMovesScore(RecordAfter(init), last);
    }
  }

  lemma CheckMovesScore(previous: Option<ProviderRecord>, check: Check)
    ensures var score, after := DegradedScoreOf(previous), AfterCheck(previous, check).degradedScore;
      && ((!check.success || check.Slow()) && 0 <= score ==> after == if score < 10 then score + 1 else 10)
      && (check.success && !check.Slow() && previous.Some? && score >= -2_000_000_000 ==> after == score - 2)
  {}

  // ----- Probes that write over what happened meanwhile -----

  /** The probes read all records before they ask the providers, so a probe is applied to
      the record of `before` although `between` has been reported meanwhile. What it
      writes still tells the whole history - in state and in down score - exactly when
      the probe succeeds, or the failures forgotten make no difference. */
  lemma StaleProbeExactly(before: seq<Check>, between: seq<Check>, probe: Check)
    requires probe.Probe?
    ensures var written, failuresThen, failuresNow :=
              AfterCheck(RecordAfter(before), probe), FailuresSinceSuccess(before), FailuresSinceSuccess(before + between);
      && (written.state == StateOf(before + between + [probe]) <==>
            probe.success || (failuresThen >= 2 <==> failuresNow >= 2))
      && (written.downScore == RecordAfter(before + between + [probe]).value.downScore <==>
            probe.success || failuresThen == failuresNow || (failuresThen >= 9 && failuresNow >= 9))
  {
    hide RecordAfter, AfterProbe;
    var all := before + between + [probe];
    assert all[..|all| - 1] == before + between;
    ScoreAndState(before);
    ScoreAndState(all);
    ProbeScoreAndState(RecordAfter(before), probe);
  }

  lemma ScoreAndState(checks: seq<Check>)
    ensures var failures := FailuresSinceSuccess(checks);
      && DownScoreOf(RecordAfter(checks)) == (if failures < 10 then failures else 10)
      && (checks != [] ==> RecordAfter(checks).Some? && RecordAfter(checks).value.state == StateOf(checks))
  {
    if checks != [] { RecordTellsHistory(checks); }
  }

  lemma ProbeScoreAndState(previous: Option<ProviderRecord>, probe: Check)
    requires probe.Probe? && 0 <= DownScoreOf(previous) <= 10
    ensures var written, score := AfterCheck(previous, probe), DownScoreOf(previous);
      && written.downScore == (if probe.success then 0 else if score < 10 then score + 1 else 10)
      && written.state == (if probe.Slow() then Degraded else if probe.success then Healthy
                           else if score >= 2 then Down else Degraded)
  {}

  // ----- The times a stale probe writes -----

  /** When a check last went that way. */
  function LastAt(checks: seq<Check>, success: bool): Option<Millis> {
    if checks == [] then None
    else if checks[|checks| - 1].success == success then Some(checks[|checks| - 1].at)
    else LastAt(checks[..|checks| - 1], success)
  }

  /** Since when the history has meant the state it means. */
  function SinceWhen(checks: seq<Check>): Millis
    requires checks != []
  {
    var init, last := checks[..|checks| - 1], checks[|checks| - 1];
    if init == [] || StateOf(init) != StateOf(checks) then last.at else SinceWhen(init)
  }

  /** Since when a provider with this history has been in the state, if it enters or keeps
      it at the time given. A provider nobody has checked has not been in any. */
  function EnteredAt(checks: seq<Check>, state: HealthState, now: Millis): Millis {
    if checks != [] && StateOf(checks) == state then SinceWhen(checks) else now
  }

  lemma {:induction false} OneLastTime(checks: seq<Check>, success: bool, at: Option<Millis>)
    requires LastTime(checks, success, at)
    ensures at == LastAt(checks, success)
    decreases |checks|
  {
    if checks != [] && checks[|checks| - 1].success != success {
      var init := checks[..|checks| - 1];
      assert forall i :: 0 <= i < |init| ==> init[i] == checks[i];
      OneLastTime(init, success, at);
    }
  }

  lemma {:induction false} OneLastChange(checks: seq<Check>, k: int)
    requires IsLastChange(checks, k)
    ensures SinceWhen(checks) == checks[k].at
    decreases |checks|
  {
    assert checks[..|checks|] == checks;
    if k < |checks| - 1 {
      var init := checks[..|checks| - 1];
      assert forall j :: 0 <= j < |checks| ==> init[..j] == checks[..j];
      OneLastChange(init, k);
    }
  }

  /** The three times of a record are those of its history. */
  lemma RecordTellsTimes(checks: seq<Check>)
    requires checks != []
    ensures RecordAfter(checks).Some?
    ensures var h := RecordAfter(checks).value;
      h.lastChangedAt == SinceWhen(checks) && h.lastSuccessAt == LastAt(checks, true) && h.lastFailureAt == LastAt(checks, false)
  {
    RecordTellsHistory(checks);
    var h := RecordAfter(checks).value;
    var k :| IsLastChange(checks, k) && h.lastChangedAt == checks[k].at;
    OneLastChange(checks, k);
    OneLastTime(checks, true, h.lastSuccessAt);
    OneLastTime(checks, false, h.lastFailureAt);
  }

  /** What a stale probe writes tells the time of the last success exactly when it is one
      itself, or none was reported meanwhile that moved it; of the last failure likewise;
      and of the last change exactly when the history it knows and the one it should know
      have been in their states to come since the same time. */
  lemma StaleProbeTimesExactly(before: seq<Check>, between: seq<Check>, probe: Check)
    requires probe.Probe?
    ensures var now, all := before + between, before + between + [probe];
      var written, told := AfterCheck(RecordAfter(before), probe), RecordAfter(all).value;
      && (written.lastSuccessAt == told.lastSuccessAt <==> probe.success || LastAt(before, true) == LastAt(now, true))
      && (written.lastFailureAt == told.lastFailureAt <==> !probe.success || LastAt(before, false) == LastAt(now, false))
      && (written.lastChangedAt == told.lastChangedAt <==>
            EnteredAt(before, StateOf(before + [probe]), probe.at) == EnteredAt(now, StateOf(all), probe.at))
  {
    hide AfterProbe;
    var now, all := before + between, before + between + [probe];
    assert all[..|all| - 1] == now;
    assert (before + [probe])[..|before|] == before;
    RecordTellsTimes(before + [probe]);
    RecordTellsTimes(all);
  }

  /** A probe that succeeds can still tell the times wrongly: it went out while the
      provider was healthy, a failure was reported meanwhile, and the record says the
      provider has been healthy since the start and never failed. */
  lemma StaleSuccessForgets(t0: Millis, t1: Millis, t2: Millis)
    requires t0 < t1 < t2
    ensures var before, between, probe := [Request(true, t0)], [Request(false, t1)], Probe(true, 0, 1_500, t2);
      var written, told := AfterCheck(RecordAfter(before), probe), RecordAfter(before + between + [probe]).value;
      && written.lastChangedAt == t0 && told.lastChangedAt == t2
      && written.lastFailureAt == None && told.lastFailureAt == Some(t1)
  {
    var before, between, probe := [Request(true, t0)], [Request(false, t1)], Probe(true, 0, 1_500, t2);
    var now, all := before + between, before + between + [probe];
    assert before[..0] == [] && now[..1] == before && all[..2] == now;
    assert (before + [probe])[..1] == before;
    RecordTellsTimes(before + [probe]);
    RecordTellsTimes(all);
  }

  /** Three failures reported while a probe was out: it leaves the provider Degraded where
      the history says Down. */
  lemma StaleProbeForgets(t: Millis)
    ensures var requests, probe := [Request(false, t), Request(false, t), Request(false, t)], Probe(false, 0, 1_500, t);
      && StateOf(requests + [probe]).Down?
      && AfterCheck(RecordAfter([]), probe).state.Degraded?
  {
    var requests, probe := [Request(false, t), Request(false, t), Request(false, t)], Probe(false, 0, 1_500, t);
    assert [] + requests == requests;
    StaleProbeExactly([], requests, probe);
  }
}
