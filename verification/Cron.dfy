/**
 Cron expressions: the five fields of a crontab entry (POSIX.1-2017, crontab utility,
 INPUT FILES), extended with steps and with 7 for Sunday, and the minute-by-minute
 search for the next fire time.

 Local time is an arbitrary function of the epoch millisecond, so everything here holds
 in every time zone.
 */
module Cron {
  import opened Domain
  import opened Text

  // ----- Fields -----

  /** One comma segment: every `step`-th value from `start` up to `end`. */
  datatype Segment = Segment(start: nat, end: nat, step: nat) {
    predicate Covers(v: nat) {
      && step > 0
      && start <= v <= end
      && (v - start) % step == 0
    }
  }

  datatype CronField = CronField(allowed: seq<bool>, wildcard: bool) {
    predicate Contains(v: nat) { v < |allowed| && allowed[v] }
  }

  /** The values a field may take: its bounds, and whether 7 is read as 0. */
  datatype FieldKind = FieldKind(min: nat, max: nat, sundaySeven: bool)

  const MINUTE := FieldKind(0, 59, false)
  const HOUR := FieldKind(0, 23, false)
  const DAY_OF_MONTH := FieldKind(1, 31, false)
  const MONTH := FieldKind(1, 12, false)
  const DAY_OF_WEEK := FieldKind(0, 6, true)

  function ParseNumber(raw: string, kind: FieldKind): Option<nat> {
    match ParseU32(raw)
    case None => None
    case Some(parsed) =>
      var v := if kind.sundaySeven && parsed == 7 then 0 else parsed;
      if kind.min <= v <= kind.max then Some(v) else None
  }

  function ParseBase(base: string, kind: FieldKind): Option<(nat, nat)> {
    if base == "*" then Some((kind.min, kind.max))
    else
      var dash := IndexOf(base, '-');
      if dash < |base| then
        var start, end := ParseNumber(base[..dash], kind), ParseNumber(base[dash + 1..], kind);
        if start.None? || end.None? || end.value < start.value then None
        else Some((start.value, end.value))
      else
        match ParseNumber(base, kind)
        case None => None
        case Some(v) => Some((v, v))
  }

  /** One segment, already trimmed. */
  function ParseSegment(segment: string, kind: FieldKind): (r: Option<Segment>)
    ensures r.Some? && kind.min <= kind.max ==>
      kind.min <= r.value.start <= r.value.end <= kind.max && r.value.step > 0
  {
    var slash := IndexOf(segment, '/');
    var base := segment[..slash];
    var step := if slash < |segment| then ParseU32(segment[slash + 1..]) else Some(1);
    if step.None? || step.value == 0 then None
    else
      match ParseBase(base, kind)
      case None => None
      case Some(range) => Some(Segment(range.0, range.1, step.value))
  }

  /** All pieces of a field as segments, or nothing when one of them is malformed. */
  function ParseSegments(pieces: seq<string>, kind: FieldKind): (r: Option<seq<Segment>>)
    ensures r.Some? ==> |r.value| == |pieces|
    ensures r.Some? ==> forall i :: 0 <= i < |pieces| ==> ParseSegment(Trim(pieces[i]), kind) == Some(r.value[i])
  {
    if pieces == [] then Some([])
    else
      var init, last := pieces[..|pieces| - 1], pieces[|pieces| - 1];
      match (ParseSegments(init, kind), ParseSegment(Trim(last), kind))
      case (Some(front), Some(segment)) => Some(front + [segment])
      case _ => None
  }

  predicate Covered(segments: seq<Segment>, v: nat) {
    exists i :: 0 <= i < |segments| && segments[i].Covers(v)
  }

  /** Which of the values up to `max` some segment covers. */
  function Marks(segments: seq<Segment>, max: nat): (marks: seq<bool>)
    ensures |marks| == max + 1
    ensures forall v :: 0 <= v <= max ==> (marks[v] <==> Covered(segments, v))
  {
    seq(max + 1, v requires 0 <= v => Covered(segments, v))
  }

  /** What `CronField::parse` means: a field is the union of its comma segments. */
  function FieldOf(text: string, kind: FieldKind): Result<CronField> {
    match ParseSegments(Split(Trim(text), ','), kind)
    case None => Err(BadSchedule)
    case Some(segments) =>
      Ok(CronField(Marks(segments, kind.max), Trim(text) == "*"))
  }

  /** `CronField::parse`, as the loop it is. It never indexes out of range, and its
      closing "has no values" check never fires. */
  method ParseField(text: string, kind: FieldKind) returns (r: Result<CronField>)
    requires kind.min <= kind.max < U32_MAX
    ensures r == FieldOf(text, kind)
  {
    var expression := Trim(text);
    var pieces := Split(expression, ',');
    if expression == "" {
      EmptyFieldRejected(kind);
      return Err(BadSchedule);
    }
    hide Covered, Segment.Covers, Marks;
    var allowed := seq(kind.max + 1, _ => false);
    ghost var segments: seq<Segment> := [];
    NoMarks(allowed, kind.max);
    var n := 0;
    while n < |pieces|
      invariant 0 <= n <= |pieces|
      invariant ParseSegments(pieces[..n], kind) == Some(segments)
      invariant allowed == Marks(segments, kind.max)
    {
      var parsed := ParseSegment(Trim(pieces[n]), kind);
      assert pieces[..n + 1][..n] == pieces[..n];
      if parsed.None? {
        PrefixParses(pieces, n + 1, kind);
        return Err(BadSchedule);
      }
      allowed := MarkSegment(allowed, parsed.value, kind.max);
      MarksAppend(segments, parsed.value, allowed, kind.max);
      segments := segments + [parsed.value];
      n := n + 1;
    }
    assert pieces[..n] == pieces;
    SomeValueAllowed(pieces, kind, segments);
    if forall v :: kind.min <= v <= kind.max ==> !allowed[v] {
      return Err(BadSchedule);
    }
    r := Ok(CronField(allowed, expression == "*"));
  }

  /** A parsed field always allows the start of its first segment. */
  lemma SomeValueAllowed(pieces: seq<string>, kind: FieldKind, segments: seq<Segment>)
    requires kind.min <= kind.max && pieces != [] && ParseSegments(pieces, kind) == Some(segments)
    ensures exists v :: kind.min <= v <= kind.max && Marks(segments, kind.max)[v]
  {
    hide ParseSegment, Trim;
    var first := ParseSegment(Trim(pieces[0]), kind).value;
    assert segments[0].Covers(first.start);
    assert Marks(segments, kind.max)[first.start];
  }

  lemma NoMarks(allowed: seq<bool>, max: nat)
    requires |allowed| == max + 1 && forall v :: 0 <= v <= max ==> !allowed[v]
    ensures allowed == Marks([], max)
  {}

  lemma MarksAppend(segments: seq<Segment>, segment: Segment, allowed: seq<bool>, max: nat)
    requires |allowed| == max + 1
    requires forall v :: 0 <= v <= max ==> (allowed[v] <==> Marks(segments, max)[v] || segment.Covers(v))
    ensures allowed == Marks(segments + [segment], max)
  {
    forall v | 0 <= v <= max
      ensures allowed[v] == Marks(segments + [segment], max)[v]
    {
      CoveredAppend(segments, segment, v);
    }
  }

  /** The inner loop: marks exactly the values the segment covers. */
  method MarkSegment(before: seq<bool>, segment: Segment, max: nat) returns (allowed: seq<bool>)
    requires |before| == max + 1 && segment.start <= segment.end <= max < U32_MAX && segment.step > 0
    ensures |allowed| == |before|
    ensures forall v :: 0 <= v <= max ==> (allowed[v] <==> before[v] || segment.Covers(v))
  {
    allowed := before;
    var value := segment.start;
    assert segment.Covers(value);
    while value <= segment.end
      invariant segment.start <= value
      invariant (value - segment.start) % segment.step == 0
      invariant |allowed| == |before|
      invariant forall v :: 0 <= v <= max ==>
        (allowed[v] <==> before[v] || (segment.Covers(v) && v < value))
    {
      allowed := allowed[value := true];
      SkippedValues(segment, value);
      var next := SatAdd32(value, segment.step);
      if next <= value {
        break;
      }
      if next < value + segment.step {
        return;
      }
      value := next;
    }
  }

  /** One step on from a covered offset is the next one, and nothing between is covered. */
  lemma SkippedValues(segment: Segment, value: nat)
    requires segment.step > 0 && segment.start <= value
    requires (value - segment.start) % segment.step == 0
    ensures (value + segment.step - segment.start) % segment.step == 0
    ensures forall v :: value < v < value + segment.step ==> !segment.Covers(v)
  {
    ModShift(value - segment.start, segment.step, segment.step);
    forall v | value < v < value + segment.step
      ensures !segment.Covers(v)
    {
      ModShift(value - segment.start, v - value, segment.step);
    }
  }

  lemma {:induction false} ModShift(x: nat, d: nat, m: nat)
    requires m > 0 && x % m == 0 && d <= m
    ensures (x + d) % m == if d == m then 0 else d
  {
    var q := x / m;
    assert x == m * q;
    if d < m {
      DivModUnique(x + d, q, d, m);
    } else {
      assert x + d == m * (q + 1);
      DivModUnique(x + d, q + 1, 0, m);
    }
  }

  lemma DivModUnique(x: nat, q: nat, r: nat, m: nat)
    requires m > 0 && x == m * q + r && r < m
    ensures x % m == r
  {
    var q' := x / m;
    if q > q' {
      TimesMonotone(m, q' + 1, q);
    } else if q < q' {
      TimesMonotone(m, q + 1, q');
    }
  }

  lemma {:induction false} TimesMonotone(m: nat, a: nat, b: nat)
    requires a <= b
    ensures m * a <= m * b
    decreases b
  {
    if a < b {
      TimesMonotone(m, a, b - 1);
    }
  }

  lemma CoveredAppend(segments: seq<Segment>, segment: Segment, v: nat)
    ensures Covered(segments + [segment], v) <==> Covered(segments, v) || segment.Covers(v)
  {
    var all := segments + [segment];
    if segment.Covers(v) { assert all[|segments|].Covers(v); }
    if Covered(segments, v) {
      var i :| 0 <= i < |segments| && segments[i].Covers(v);
      assert all[i].Covers(v);
    }
  }

  /** A field fails as soon as one of its prefixes does. */
  lemma {:induction false} PrefixParses(pieces: seq<string>, n: nat, kind: FieldKind)
    requires n <= |pieces|
    ensures ParseSegments(pieces, kind).Some? ==> ParseSegments(pieces[..n], kind).Some?
    decreases |pieces|
  {
    if n == |pieces| {
      assert pieces[..n] == pieces;
    } else {
      var init := pieces[..|pieces| - 1];
      PrefixParses(init, n, kind);
      assert init[..n] == pieces[..n];
    }
  }

  lemma EmptyFieldRejected(kind: FieldKind)
    ensures ParseSegments(Split("", ','), kind).None?
  {
    assert Split("", ',') == [""];
    assert Trim("") == "";
    assert ParseSegment("", kind).None?;
  }

  predicate AllParse(pieces: seq<string>, kind: FieldKind) {
    forall i :: 0 <= i < |pieces| ==> ParseSegment(Trim(pieces[i]), kind).Some?
  }

  /** Some piece reaches `v` from its start in whole steps. */
  predicate SomeCovers(pieces: seq<string>, kind: FieldKind, v: nat)
    requires AllParse(pieces, kind)
  {
    exists i :: 0 <= i < |pieces| && ParseSegment(Trim(pieces[i]), kind).value.Covers(v)
  }

  /** A field is accepted exactly when each comma segment is, and then `v` is allowed
      exactly when some segment reaches it from its start in whole steps, which keeps it
      in range. */
  lemma FieldMeaning(text: string, kind: FieldKind, v: nat)
    requires kind.min <= kind.max
    ensures var pieces, field := Split(Trim(text), ','), FieldOf(text, kind);
      && (field.Ok? <==> AllParse(pieces, kind))
      && (field.Ok? ==> (field.value.Contains(v) <==> SomeCovers(pieces, kind, v)))
      && (field.Ok? && field.value.Contains(v) ==> kind.min <= v <= kind.max)
  {
    PiecesMeaning(Split(Trim(text), ','), kind, v);
  }

  lemma {:induction false} SomeParse(pieces: seq<string>, kind: FieldKind)
    ensures AllParse(pieces, kind) ==> ParseSegments(pieces, kind).Some?
    decreases |pieces|
  {
    hide ParseSegment, Trim;
    if pieces != [] && AllParse(pieces, kind) {
      var init := pieces[..|pieces| - 1];
      assert forall i :: 0 <= i < |init| ==> init[i] == pieces[i];
      SomeParse(init, kind);
      assert ParseSegment(Trim(pieces[|pieces| - 1]), kind).Some?;
    }
  }

  lemma PiecesMeaning(pieces: seq<string>, kind: FieldKind, v: nat)
    requires kind.min <= kind.max
    ensures ParseSegments(pieces, kind).Some? <==> AllParse(pieces, kind)
    ensures ParseSegments(pieces, kind).Some? ==>
      (Covered(ParseSegments(pieces, kind).value, v) <==> SomeCovers(pieces, kind, v))
    ensures ParseSegments(pieces, kind).Some? && Covered(ParseSegments(pieces, kind).value, v) ==>
      kind.min <= v <= kind.max
  {
    SomeParse(pieces, kind);
    if ParseSegments(pieces, kind).Some? {
      var segments := ParseSegments(pieces, kind).value;
      if i :| 0 <= i < |pieces| && ParseSegment(Trim(pieces[i]), kind).value.Covers(v) {
        assert segments[i].Covers(v);
      }
      if i :| 0 <= i < |segments| && segments[i].Covers(v) {
        assert ParseSegment(Trim(pieces[i]), kind).value.Covers(v);
      }
    }
  }

  // ----- Schedules -----

  datatype LocalTime = LocalTime(minute: nat, hour: nat, day: nat, month: nat, weekday: nat)

  /** The last instant the calendar library can represent. */
  const LAST_INSTANT: int := 8_210_266_876_799_999

  /** A time zone: local time at an instant, and none past the representable range. */
  type Zone = z: int -> Option<LocalTime> | forall t :: t > LAST_INSTANT ==> z(t) == None
    witness (t: int) => None

  datatype CronSchedule = CronSchedule(
    minute: CronField, hour: CronField, dayOfMonth: CronField, month: CronField, dayOfWeek: CronField,
    zone: Zone)

  /** `CronSchedule::parse`. */
  function ParseCron(expr: string, zone: Zone): Result<CronSchedule> {
    var parts := Words(expr);
    if |parts| != 5 then Err(BadSchedule)
    else
      var minute, hour := FieldOf(parts[0], MINUTE), FieldOf(parts[1], HOUR);
      var day, month := FieldOf(parts[2], DAY_OF_MONTH), FieldOf(parts[3], MONTH);
      var weekday := FieldOf(parts[4], DAY_OF_WEEK);
      if minute.Err? || hour.Err? || day.Err? || month.Err? || weekday.Err? then Err(BadSchedule)
      else Ok(CronSchedule(minute.value, hour.value, day.value, month.value, weekday.value, zone))
  }

  /** `matches_epoch_ms`: with both day fields restricted, either one suffices. */
  predicate Matches(cron: CronSchedule, t: Millis) {
    match cron.zone(t)
    case None => false
    case Some(local) =>
      && cron.minute.Contains(local.minute)
      && cron.hour.Contains(local.hour)
      && cron.month.Contains(local.month)
      && var day, weekday := cron.dayOfMonth.Contains(local.day), cron.dayOfWeek.Contains(local.weekday);
         if cron.dayOfMonth.wildcard && cron.dayOfWeek.wildcard then true
         else if cron.dayOfMonth.wildcard then weekday
         else if cron.dayOfWeek.wildcard then day
         else day || weekday
  }

  predicate MinuteAligned(t: Millis) { t % 60_000 == 0 }

  function FloorToMinute(t: Millis): Millis { t - t % 60_000 }

  /** A minute-aligned instant at which the schedule fires. */
  predicate Fires(cron: CronSchedule, t: Millis) { MinuteAligned(t) && Matches(cron, t) }

  const MAX_SEARCH_MINUTES: nat := 5 * 366 * 24 * 60

  /** The candidate-by-candidate search, with the number of candidates left to try. */
  function Search(cron: CronSchedule, candidate: Millis, budget: nat): Result<Option<Millis>>
    decreases budget
  {
    if budget == 0 then Err(NoFireTime)
    else if Matches(cron, candidate) then Ok(Some(candidate))
    else
      var next := SatAdd(candidate, 60_000);
      if next <= candidate then Ok(None) else Search(cron, next, budget - 1)
  }

  /** `next_match_after_epoch_ms`, as the loop it is. */
  method NextMatchAfter(cron: CronSchedule, cursor: Millis) returns (r: Result<Option<Millis>>)
    ensures r == Search(cron, SatAdd(FloorToMinute(cursor), 60_000), MAX_SEARCH_MINUTES)
  {
    var candidate := SatAdd(FloorToMinute(cursor), 60_000);
    ghost var first := candidate;
    var tried := 0;
    while tried < MAX_SEARCH_MINUTES
      invariant 0 <= tried <= MAX_SEARCH_MINUTES
      invariant Search(cron, first, MAX_SEARCH_MINUTES) == Search(cron, candidate, MAX_SEARCH_MINUTES - tried)
    {
      if Matches(cron, candidate) {
        return Ok(Some(candidate));
      }
      var next := SatAdd(candidate, 60_000);
      if next <= candidate {
        return Ok(None);
      }
      candidate, tried := next, tried + 1;
    }
    return Err(NoFireTime);
  }

  lemma {:induction false} SearchFindsLeast(cron: CronSchedule, candidate: Millis, budget: nat)
    requires MinuteAligned(candidate) || candidate > LAST_INSTANT
    ensures var r := Search(cron, candidate, budget);
      && (r.Ok? && r.value.Some? ==>
            && candidate <= r.value.value && Fires(cron, r.value.value)
            && forall t :: candidate <= t < r.value.value ==> !Fires(cron, t))
      && (r.Ok? && r.value.None? ==> forall t :: candidate <= t ==> !Fires(cron, t))
      && (r.Err? ==> forall t :: candidate <= t < candidate + 60_000 * budget ==> !Fires(cron, t))
    decreases budget
  {
    if budget != 0 && !Matches(cron, candidate) {
      var next := SatAdd(candidate, 60_000);
      assert MinuteAligned(candidate) ==> forall t :: candidate < t < candidate + 60_000 ==> !MinuteAligned(t);
      if next > candidate {
        SearchFindsLeast(cron, next, budget - 1);
      }
    }
  }

  /** The next fire time after a cursor, as the schedule loop asks for it. */
  function NextMatch(cron: CronSchedule, cursor: Millis): (r: Result<Option<Millis>>)
    ensures r.Ok? && r.value.Some? ==> cursor < r.value.value
  {
    var first := SatAdd(FloorToMinute(cursor), 60_000);
    SearchFindsLeast(cron, first, MAX_SEARCH_MINUTES);
    Search(cron, first, MAX_SEARCH_MINUTES)
  }

  /** The search returns the least minute-aligned match after the cursor, reports that
      there is none at all only when there is none, and finds what the next five 366-day
      years hold. */
  lemma NextMatchIsLeast(cron: CronSchedule, cursor: Millis)
    ensures var r := NextMatch(cron, cursor);
      && (r.Ok? && r.value.Some? ==>
            && cursor < r.value.value && Fires(cron, r.value.value)
            && forall t :: cursor < t < r.value.value ==> !Fires(cron, t))
      && (r.Ok? && r.value.None? ==> forall t :: cursor < t ==> !Fires(cron, t))
      && (r.Err? ==>
            forall t :: cursor < t < FloorToMinute(cursor) + 60_000 * (MAX_SEARCH_MINUTES + 1) ==> !Fires(cron, t))
      && (r.Ok? && r.value.Some? ==>
            r.value.value < FloorToMinute(cursor) + 60_000 * (MAX_SEARCH_MINUTES + 1))
  {
    hide Matches;
    var first := SatAdd(FloorToMinute(cursor), 60_000);
    SearchFindsLeast(cron, first, MAX_SEARCH_MINUTES);
    SearchIsBounded(cron, first, MAX_SEARCH_MINUTES);
    NothingWithinTheMinute(cursor);
  }

  /** No fire time for five 366-day years after the instant, and that many years left
      before the end of time. */
  ghost predicate LongGap(cron: CronSchedule, at: Millis) {
    var minute, span := at - at % 60_000, 5 * 366 * 86_400_000;
    && minute + span < I64_MAX
    && forall t :: at < t < minute + span + 60_000 ==> !Fires(cron, t)
  }

  /** The search gives up if and only if such a gap follows its cursor. */
  lemma GivesUpExactly(cron: CronSchedule, cursor: Millis)
    ensures NextMatch(cron, cursor).Err? <==> LongGap(cron, cursor)
  {
    hide Matches;
    var first := FloorToMinute(cursor) + 60_000;
    NothingWithinTheMinute(cursor);
    if first <= I64_MAX {
      SearchGivesUpExactly(cron, first, MAX_SEARCH_MINUTES);
    } else {
      assert SatAdd(FloorToMinute(cursor), 60_000) == I64_MAX;
    }
  }

  lemma {:induction false} SearchGivesUpExactly(cron: CronSchedule, candidate: Millis, budget: nat)
    requires MinuteAligned(candidate) && candidate <= I64_MAX && budget > 0
    ensures Search(cron, candidate, budget).Err? <==>
      && candidate + 60_000 * (budget - 1) < I64_MAX
      && forall t :: candidate <= t < candidate + 60_000 * budget ==> !Fires(cron, t)
    decreases budget
  {
    var next := candidate + 60_000;
    assert forall t :: candidate < t < next ==> !MinuteAligned(t);
    if Matches(cron, candidate) {
      assert Fires(cron, candidate);
    } else if next > I64_MAX {
      assert !Matches(cron, I64_MAX);
    } else if budget > 1 {
      SearchGivesUpExactly(cron, next, budget - 1);
    }
  }

  lemma NothingWithinTheMinute(cursor: Millis)
    ensures FloorToMinute(cursor) <= cursor < FloorToMinute(cursor) + 60_000
    ensures forall t :: cursor < t < FloorToMinute(cursor) + 60_000 ==> !MinuteAligned(t)
  {}

  lemma {:induction false} SearchIsBounded(cron: CronSchedule, candidate: Millis, budget: nat)
    ensures var r := Search(cron, candidate, budget);
      r.Ok? && r.value.Some? ==> r.value.value < candidate + 60_000 * budget
    decreases budget
  {
    if budget != 0 && !Matches(cron, candidate) && SatAdd(candidate, 60_000) > candidate {
      SearchIsBounded(cron, SatAdd(candidate, 60_000), budget - 1);
    }
  }

  // ----- A schedule that never fires -----

  /** A field of one segment, without spaces around it. */
  lemma OneSegmentField(text: string, kind: FieldKind, segment: Segment)
    requires ',' !in text && Trim(text) == text && ParseSegment(text, kind) == Some(segment)
    ensures FieldOf(text, kind) == Ok(CronField(Marks([segment], kind.max), text == "*"))
  {
    hide ParseSegment, Trim, Marks;
    assert IndexOf(text, ',') == |text|;
    assert Split(text, ',') == [text];
    OnePiece(text, kind, segment);
  }

  lemma OnePiece(text: string, kind: FieldKind, segment: Segment)
    requires ParseSegment(Trim(text), kind) == Some(segment)
    ensures ParseSegments([text], kind) == Some([segment])
  {
    hide ParseSegment, Trim;
    assert [text][..0] == [];
    assert ParseSegments([], kind) == Some([]);
    assert ParseSegments([text], kind).value == [segment];
  }

  /** A field that is one number allows just that. */
  lemma NumberField(text: string, kind: FieldKind, v: nat)
    requires text != "" && AllDigits(text) && ParseNumber(text, kind) == Some(v)
    ensures var f := FieldOf(text, kind);
      f.Ok? && !f.value.wildcard && forall w :: f.value.Contains(w) <==> w == v
  {
    hide FieldOf;
    assert Trim(text) == text;
    assert IndexOf(text, '/') == |text| && IndexOf(text, '-') == |text|;
    assert text[..|text|] == text;
    assert text[0] != '*';
    var segment := Segment(v, v, 1);
    OneSegmentField(text, kind, segment);
    assert [segment][0].Covers(v);
    assert forall w: nat :: Covered([segment], w) <==> w == v;
  }

  ghost predicate NoThirtyFirstOfFebruary(zone: Zone) {
    forall t :: zone(t).Some? ==> !(zone(t).value.month == 2 && zone(t).value.day == 31)
  }

  lemma FebruaryWords()
    ensures Words("0 0 31 2 *") == ["0", "0", "31", "2", "*"]
  {
    hide Words;
    LastWord("*");
    FirstWord("2", "*");
    FirstWord("31", "2 *");
    FirstWord("0", "31 2 *");
    FirstWord("0", "0 31 2 *");
    assert "2" + " " + "*" == "2 *" && "31" + " " + "2 *" == "31 2 *";
    assert "0" + " " + "31 2 *" == "0 31 2 *" && "0" + " " + "0 31 2 *" == "0 0 31 2 *";
  }

  lemma FebruaryFields()
    ensures FieldOf("0", MINUTE).Ok? && FieldOf("0", HOUR).Ok?
    ensures var day := FieldOf("31", DAY_OF_MONTH); day.Ok? && !day.value.wildcard && forall w :: day.value.Contains(w) <==> w == 31
    ensures var month := FieldOf("2", MONTH); month.Ok? && forall w :: month.value.Contains(w) <==> w == 2
  {
    hide FieldOf;
    assert "31"[..1] == "3" && "3"[..0] == "" && "2"[..0] == "" && "0"[..0] == "";
    NumberField("0", MINUTE, 0);
    NumberField("0", HOUR, 0);
    NumberField("31", DAY_OF_MONTH, 31);
    NumberField("2", MONTH, 2);
  }

  lemma StarField(kind: FieldKind)
    requires kind.min <= kind.max
    ensures FieldOf("*", kind).Ok? && FieldOf("*", kind).value.wildcard
  {
    hide FieldOf;
    assert Trim("*") == "*" && IndexOf("*", '/') == 1 && "*"[..1] == "*";
    OneSegmentField("*", kind, Segment(kind.min, kind.max, 1));
  }

  /** "0 0 31 2 *" parses, asks for a day no calendar has, and so makes every search that
      the end of time does not cut short an error. */
  lemma FebruaryThirtyFirstGivesUp(zone: Zone, cursor: Millis)
    requires NoThirtyFirstOfFebruary(zone)
    requires cursor - cursor % 60_000 + 5 * 366 * 86_400_000 < I64_MAX
    ensures var cron := ParseCron("0 0 31 2 *", zone); cron.Ok? && NextMatch(cron.value, cursor).Err?
  {
    hide FieldOf, NextMatch, Words;
    FebruaryWords();
    FebruaryFields();
    StarField(DAY_OF_WEEK);
    var cron := ParseCron("0 0 31 2 *", zone).value;
    assert forall t :: !Matches(cron, t);
    GivesUpExactly(cron, cursor);
  }
}
