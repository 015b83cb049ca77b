/**
 Recurring schedules ("20m", "cron:tz=Europe/Oslo;0 9 * * 1") and the fire times that
 are due between the last one scheduled and now.
 */
module Schedule {
  import opened Domain
  import opened Text
  import opened Cron

  type Interval = i: nat | i > 0 witness 1

  datatype RecurringSchedule = Every(interval: Interval) | OnCron(cron: CronSchedule)

  /** The time-zone database: named zones, and UTC for expressions without one. */
  datatype ZoneDb = ZoneDb(named: string -> Option<Zone>, utc: Zone)

  // ----- Parsing -----

  function UnitMultiplier(unit: char): Option<Interval> {
    match unit
    case 's' => Some(1_000)
    case 'm' => Some(60_000)
    case 'h' => Some(3_600_000)
    case 'd' => Some(86_400_000)
    case _ => None
  }

  function ScaleInterval(value: int, multiplier: Interval): Interval
    requires value > 0
  {
    var product := value * multiplier;
    if product > I64_MAX then I64_MAX else product
  }

  /** `parse_schedule_interval_ms`. */
  function ParseInterval(expr: string): Result<Interval> {
    if |expr| < 2 then Err(BadSchedule)
    else
      var value, multiplier := ParseI64(expr[..|expr| - 1]), UnitMultiplier(expr[|expr| - 1]);
      if value.None? || value.value <= 0 || multiplier.None? then Err(BadSchedule)
      else Ok(ScaleInterval(value.value, multiplier.value))
  }

  function ParseCronText(raw: string, zones: ZoneDb): Result<CronSchedule> {
    var trimmed := Trim(raw);
    if trimmed == "" then Err(BadSchedule)
    else if HasPrefix(trimmed, "tz=") then
      var rest := trimmed[3..];
      var semicolon := IndexOf(rest, ';');
      if semicolon == |rest| then Err(BadSchedule)
      else
        var name, expr := Trim(rest[..semicolon]), Trim(rest[semicolon + 1..]);
        if name == "" || expr == "" then Err(BadSchedule)
        else
          match zones.named(name)
          case None => Err(BadSchedule)
          case Some(zone) => ParseCron(expr, zone)
    else ParseCron(trimmed, zones.utc)
  }

  /** `parse_recurring_schedule`. */
  function ParseSchedule(expr: string, zones: ZoneDb): Result<RecurringSchedule> {
    var trimmed := Trim(expr);
    if HasPrefix(trimmed, "cron:") then
      match ParseCronText(trimmed[5..], zones)
      case Ok(cron) => Ok(OnCron(cron))
      case Err(e) => Err(e)
    else
      match ParseInterval(trimmed)
      case Ok(interval) => Ok(Every(interval))
      case Err(e) => Err(e)
  }

  // ----- Due times -----

  function NextFire(schedule: RecurringSchedule, cursor: Millis): (r: Result<Option<Millis>>)
    ensures r.Ok? && r.value.Some? && r.value.value < I64_MAX ==> cursor < r.value.value
  {
    match schedule
    case Every(interval) => Ok(Some(SatAdd(cursor, interval)))
    case OnCron(cron) => NextMatch(cron, cursor)
  }

  /** The fire times after the cursor up to now, in the order the store's loops find them. */
  function DueFrom(schedule: RecurringSchedule, cursor: Millis, now: Millis): Result<seq<Millis>>
    requires now < I64_MAX
    decreases if cursor < now then now - cursor else 0
  {
    match NextFire(schedule, cursor)
    case Err(e) => Err(e)
    case Ok(None) => Ok([])
    case Ok(Some(next)) =>
      if next > now then Ok([])
      else
        match DueFrom(schedule, next, now)
        case Err(e) => Err(e)
        case Ok(rest) => Ok([next] + rest)
  }

  /** What `recurring_due_times_ms` answers. */
  function DueTimes(zones: ZoneDb, expr: string, createdAt: Millis, latest: Option<Millis>, now: Millis)
    : Result<seq<Millis>>
    requires now < I64_MAX
  {
    match ParseSchedule(expr, zones)
    case Err(e) => Err(e)
    case Ok(schedule) =>
      if now < createdAt then Ok([])
      else DueFrom(schedule, Cursor(createdAt, latest), now)
  }

  function Cursor(createdAt: Millis, latest: Option<Millis>): Millis {
    match latest case Some(t) => t case None => createdAt
  }

  /** `recurring_due_times_ms`, as the two loops it is. The interval loop needs
      `now < I64_MAX`: at the top of the range its counter saturates and it never stops. */
  method RecurringDueTimes(zones: ZoneDb, expr: string, createdAt: Millis, latest: Option<Millis>, now: Millis)
    returns (r: Result<seq<Millis>>)
    requires now < I64_MAX
    ensures r == DueTimes(zones, expr, createdAt, latest, now)
  {
    var parsed := ParseSchedule(expr, zones);
    if parsed.Err? {
      return Err(parsed.error);
    }
    var schedule := parsed.value;
    if now < createdAt {
      return Ok([]);
    }
    var due: seq<Millis> := [];
    ghost var start := Cursor(createdAt, latest);
    assert DueAfter(schedule, start, due, start, now) by {
      assert forall rest: seq<Millis> :: [] + rest == rest;
    }
    match schedule
    case Every(interval) =>
      ghost var last := start;
      var next := SatAdd(Cursor(createdAt, latest), interval);
      while next <= now
        invariant next == SatAdd(last, interval)
        invariant DueAfter(schedule, start, due, last, now)
        decreases now - next
      {
        DueAfterStep(schedule, start, due, last, now);
        due, last, next := due + [next], next, SatAdd(next, interval);
      }
      assert DueFrom(schedule, last, now) == Ok([]);
      assert due + [] == due;
      r := Ok(due);
    case OnCron(cron) =>
      var cursor := Cursor(createdAt, latest);
      while true
        invariant DueAfter(schedule, start, due, cursor, now)
        decreases if cursor < now then now - cursor else 0
      {
        var found := NextMatchAfter(cron, cursor);
        if found.Err? {
          return Err(found.error);
        }
        if found.value.None? || found.value.value > now {
          assert DueFrom(schedule, cursor, now) == Ok([]) && due + [] == due;
          break;
        }
        DueAfterStep(schedule, start, due, cursor, now);
        due, cursor := due + [found.value.value], found.value.value;
      }
      r := Ok(due);
  }

  /** Looking on from `cursor` and putting `due` in front is looking from `start`. */
  ghost predicate DueAfter(schedule: RecurringSchedule, start: Millis, due: seq<Millis>, cursor: Millis, now: Millis)
    requires now < I64_MAX
  {
    DueFrom(schedule, start, now) ==
      match DueFrom(schedule, cursor, now)
      case Err(e) => Err(e)
      case Ok(rest) => Ok(due + rest)
  }

  lemma DueAfterStep(schedule: RecurringSchedule, start: Millis, due: seq<Millis>, cursor: Millis, now: Millis)
    requires now < I64_MAX && DueAfter(schedule, start, due, cursor, now)
    requires var next := NextFire(schedule, cursor); next.Ok? && next.value.Some? && next.value.value <= now
    ensures DueAfter(schedule, start, due + [NextFire(schedule, cursor).value.value],
                     NextFire(schedule, cursor).value.value, now)
  {
    var next := NextFire(schedule, cursor).value.value;
    if DueFrom(schedule, next, now).Ok? {
      var rest := DueFrom(schedule, next, now).value;
      assert due + ([next] + rest) == due + [next] + rest;
    }
  }

  /** The interval loop's counter after so many rounds. */
  function Counter(next: Millis, interval: Interval, rounds: nat): Millis {
    if rounds == 0 then next else SatAdd(Counter(next, interval, rounds - 1), interval)
  }

  /** From every start in the time range the interval loop passes now in some round, and so
      ends, exactly when now is not the top of the range. */
  lemma IntervalLoopEndsExactly(next: Millis, interval: Interval, now: Millis)
    requires next <= I64_MAX
    ensures (exists rounds :: Counter(next, interval, rounds) > now) <==> now < I64_MAX
  {
    if now < I64_MAX {
      var rounds := if next > now then 0 else now - next + 1;
      CounterRange(next, interval, rounds);
      assert Counter(next, interval, rounds) > now;
    } else {
      forall rounds
        ensures Counter(next, interval, rounds) <= now
      {
        CounterRange(next, interval, rounds);
      }
    }
  }

  lemma {:induction false} CounterRange(next: Millis, interval: Interval, rounds: nat)
    requires next <= I64_MAX
    ensures Counter(next, interval, rounds) <= I64_MAX
    ensures Counter(next, interval, rounds) >= if next + rounds > I64_MAX then I64_MAX else next + rounds
  {
    if rounds > 0 {
      CounterRange(next, interval, rounds - 1);
    }
  }

  // ----- What the due times are -----

  /** The instants a schedule means, seen from a cursor it fired at (or was created at). */
  predicate FireTime(schedule: RecurringSchedule, cursor: Millis, t: Millis) {
    match schedule
    case Every(interval) => cursor < t && (t - cursor) % interval == 0
    case OnCron(cron) => Fires(cron, t)
  }

  predicate StrictlyAscending(ts: seq<Millis>) {
    forall i, j :: 0 <= i < j < |ts| ==> ts[i] < ts[j]
  }

  /** The next fire is the least one, and seen from it the later ones are the same. */
  lemma NextFireIsLeast(schedule: RecurringSchedule, cursor: Millis, t: Millis)
    requires cursor < t < I64_MAX
    ensures var r := NextFire(schedule, cursor);
      && (r == Ok(None) ==> !FireTime(schedule, cursor, t))
      && (r.Ok? && r.value.Some? && t < r.value.value ==> !FireTime(schedule, cursor, t))
      && (r.Ok? && r.value == Some(t) ==> FireTime(schedule, cursor, t))
      && (r.Ok? && r.value.Some? && r.value.value < t ==>
            (FireTime(schedule, cursor, t) <==> FireTime(schedule, r.value.value, t)))
  {
    match schedule
    case OnCron(cron) =>
      NextMatchIsLeast(cron, cursor);
    case Every(interval) =>
      var next := SatAdd(cursor, interval);
      if t < next {
        DivModUnique(t - cursor, 0, t - cursor, interval);
      } else if t == next {
        DivModUnique(interval, 1, 0, interval);
      } else {
        var x := t - next;
        DivModUnique(x + interval, x / interval + 1, x % interval, interval);
      }
  }

  /** The due times are exactly the fire times in (cursor, now], strictly ascending,
      with none missed. */
  lemma {:induction false} DueFromExact(schedule: RecurringSchedule, cursor: Millis, now: Millis)
    requires now < I64_MAX
    requires DueFrom(schedule, cursor, now).Ok?
    ensures var due := DueFrom(schedule, cursor, now).value;
      && StrictlyAscending(due)
      && forall t :: t in due <==> cursor < t <= now && FireTime(schedule, cursor, t)
    decreases if cursor < now then now - cursor else 0
  {
    hide NextFire, FireTime;
    var due := DueFrom(schedule, cursor, now).value;
    var next := NextFire(schedule, cursor);
    if next.value.Some? && next.value.value <= now {
      DueFromExact(schedule, next.value.value, now);
      assert forall t :: t in due[1..] ==> next.value.value < t;
      assert forall i :: 1 <= i < |due| ==> due[i] in due[1..];
    }
    forall t
      ensures t in due <==> cursor < t <= now && FireTime(schedule, cursor, t)
    {
      if cursor < t <= now {
        NextFireIsLeast(schedule, cursor, t);
      }
    }
  }

  function LastOr(cursor: Millis, due: seq<Millis>): Millis {
    if due == [] then cursor else due[|due| - 1]
  }

  /** Asking at `t1` and again at `t2` from where the first answer stopped finds what
      asking once at `t2` finds; a search that succeeds at `t2` succeeded at `t1`. */
  lemma {:induction false} DueFromSplits(schedule: RecurringSchedule, cursor: Millis, t1: Millis, t2: Millis)
    requires t1 <= t2 < I64_MAX
    requires DueFrom(schedule, cursor, t2).Ok?
    ensures DueFrom(schedule, cursor, t1).Ok?
    ensures var first := DueFrom(schedule, cursor, t1).value;
      var second := DueFrom(schedule, LastOr(cursor, first), t2);
      second.Ok? && DueFrom(schedule, cursor, t2).value == first + second.value
    decreases if cursor < t1 then t1 - cursor else 0
  {
    hide NextFire;
    var next := NextFire(schedule, cursor);
    if next.value.Some? && next.value.value <= t1 {
      var t := next.value.value;
      DueFromSplits(schedule, t, t1, t2);
      var rest := DueFrom(schedule, t, t1).value;
      assert DueFrom(schedule, cursor, t1).value == [t] + rest;
      assert LastOr(cursor, [t] + rest) == LastOr(t, rest);
    } else {
      assert DueFrom(schedule, cursor, t1).value == [];
    }
  }

  /** The cursors a schedule loop asks from: where it starts and the fire times it passes. */
  predicate Passes(schedule: RecurringSchedule, cursor: Millis, now: Millis, at: Millis) {
    at == cursor || (cursor < at <= now && FireTime(schedule, cursor, at))
  }

  /** The search from the instant finds no next fire time: only cron searches give up, and
      they do exactly where a long gap follows. */
  ghost predicate GapAfter(schedule: RecurringSchedule, at: Millis) { schedule.OnCron? && LongGap(schedule.cron, at) }

  lemma NextFireFailsExactly(schedule: RecurringSchedule, at: Millis)
    ensures NextFire(schedule, at).Err? <==> GapAfter(schedule, at)
  {
    if schedule.OnCron? {
      GivesUpExactly(schedule.cron, at);
    }
  }

  /** The answer is an error exactly when a long gap follows the start or some fire time
      up to now. */
  lemma {:induction false} DueFromFailsExactly(schedule: RecurringSchedule, cursor: Millis, now: Millis)
    requires now < I64_MAX
    ensures DueFrom(schedule, cursor, now).Err? <==>
      exists at :: Passes(schedule, cursor, now, at) && GapAfter(schedule, at)
    decreases if cursor < now then now - cursor else 0
  {
    hide LongGap, NextFire;
    NextFireFailsExactly(schedule, cursor);
    var next := NextFire(schedule, cursor);
    if next.Err? {
      assert Passes(schedule, cursor, now, cursor);
    } else if next.value.Some? && next.value.value <= now {
      var t := next.value.value;
      DueFromFailsExactly(schedule, t, now);
      forall at
        ensures Passes(schedule, t, now, at) ==> Passes(schedule, cursor, now, at)
        ensures Passes(schedule, cursor, now, at) ==> at == cursor || Passes(schedule, t, now, at)
      {
        if cursor < at <= now { NextFireIsLeast(schedule, cursor, at); }
      }
    } else {
      forall at | Passes(schedule, cursor, now, at)
        ensures at == cursor
      {
        if cursor < at <= now { NextFireIsLeast(schedule, cursor, at); }
      }
    }
  }
}
