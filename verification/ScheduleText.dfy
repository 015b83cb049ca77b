/**
 What the texts of schedules mean: which instants a cron line fires at, word by word,
 what the segments of a word cover, and how long an interval is.
 */
module ScheduleText {
  import opened Domain
  import opened Text
  import opened Cron
  import opened Schedule

  // ----- Words -----

  /** A word without space in it. */
  predicate Solid(word: string) { word != "" && forall i :: 0 <= i < |word| ==> !IsWhitespace(word[i]) }

  lemma {:induction false} WordsAreSolid(s: string, begun: string)
    requires begun == "" || Solid(begun)
    ensures forall i :: 0 <= i < |WordsFrom(s, begun)| ==> Solid(WordsFrom(s, begun)[i])
    decreases |s|
  {
    hide IsWhitespace;
    if s != [] {
      if IsWhitespace(s[0]) {
        WordsAreSolid(s[1..], []);
      } else {
        WordsAreSolid(s[1..], begun + [s[0]]);
      }
    }
  }

  lemma SolidIsTrimmed(word: string)
    requires Solid(word)
    ensures Trim(word) == word
  {}

  // ----- What a cron line means -----

  /** The value is one that some comma segment of the word reaches in whole steps. */
  ghost predicate Reaches(word: string, kind: FieldKind, v: nat) {
    var pieces := Split(word, ',');
    AllParse(pieces, kind) && SomeCovers(pieces, kind, v)
  }

  /** The five words are minute, hour, day of the month, month and day of the week. */
  function KindOf(n: nat): FieldKind
    requires n < 5
  {
    [FieldKind(0, 59, false), FieldKind(0, 23, false), FieldKind(1, 31, false), FieldKind(1, 12, false), FieldKind(0, 6, true)][n]
  }

  function FieldNo(cron: CronSchedule, n: nat): CronField
    requires n < 5
  {
    [cron.minute, cron.hour, cron.dayOfMonth, cron.month, cron.dayOfWeek][n]
  }

  lemma FieldByWord(expr: string, zone: Zone, n: nat, v: nat)
    requires n < 5 && ParseCron(expr, zone).Ok?
    ensures |Words(expr)| == 5
    ensures var cron, word := ParseCron(expr, zone).value, Words(expr)[n];
      && cron.zone == zone
      && (FieldNo(cron, n).wildcard <==> word == "*")
      && (FieldNo(cron, n).Contains(v) <==> Reaches(word, KindOf(n), v))
  {
    hide Words, FieldOf, Trim, AllParse, SomeCovers, Split;
    var word := Words(expr)[n];
    SolidWords(expr, n);
    SolidIsTrimmed(word);
    FieldMeaning(word, KindOf(n), v);
    WildcardField(word, KindOf(n));
    assert FieldOf(word, KindOf(n)) == Ok(FieldNo(ParseCron(expr, zone).value, n)) by {
      assert n == 0 || n == 1 || n == 2 || n == 3 || n == 4;
    }
  }

  lemma SolidWords(expr: string, n: nat)
    requires n < |Words(expr)|
    ensures Solid(Words(expr)[n])
  {
    WordsAreSolid(expr, []);
  }

  lemma WildcardField(word: string, kind: FieldKind)
    requires Trim(word) == word
    ensures FieldOf(word, kind).Ok? ==> (FieldOf(word, kind).value.wildcard <==> word == "*")
  {
    hide ParseSegments, Trim, Marks;
  }

  /** Local time at the instant, if there is one, is reached by the words for minute, hour
      and month. */
  ghost predicate HourFits(words: seq<string>, local: LocalTime)
    requires |words| == 5
  {
    && Reaches(words[0], FieldKind(0, 59, false), local.minute)
    && Reaches(words[1], FieldKind(0, 23, false), local.hour)
    && Reaches(words[3], FieldKind(1, 12, false), local.month)
  }

  ghost predicate DayFits(words: seq<string>, local: LocalTime)
    requires |words| == 5
  {
    Reaches(words[2], FieldKind(1, 31, false), local.day)
  }

  ghost predicate WeekdayFits(words: seq<string>, local: LocalTime)
    requires |words| == 5
  {
    Reaches(words[4], FieldKind(0, 6, true), local.weekday)
  }

  /** A line fires at the whole minutes whose local time its words reach. A day word that
      is a star does not count; when neither is one, it is enough that one of the two
      reaches its day. */
  lemma FiresByWords(expr: string, zone: Zone, t: Millis)
    requires ParseCron(expr, zone).Ok?
    ensures |Words(expr)| == 5
    ensures var words := Words(expr);
      Fires(ParseCron(expr, zone).value, t) <==>
        && t % 60_000 == 0 && zone(t).Some?
        && var local := zone(t).value;
           && HourFits(words, local)
           && (words[2] == "*" && words[4] != "*" ==> WeekdayFits(words, local))
           && (words[2] != "*" && words[4] == "*" ==> DayFits(words, local))
           && (words[2] != "*" && words[4] != "*" ==> DayFits(words, local) || WeekdayFits(words, local))
  {
    hide Words, ParseCron, Reaches, CronField.Contains;
    FieldByWord(expr, zone, 2, 0);
    FieldByWord(expr, zone, 4, 0);
    if zone(t).Some? {
      var local := zone(t).value;
      FieldByWord(expr, zone, 0, local.minute);
      FieldByWord(expr, zone, 1, local.hour);
      FieldByWord(expr, zone, 2, local.day);
      FieldByWord(expr, zone, 3, local.month);
      FieldByWord(expr, zone, 4, local.weekday);
    }
    var cron := ParseCron(expr, zone).value;
    assert cron.minute == FieldNo(cron, 0) && cron.hour == FieldNo(cron, 1) && cron.dayOfMonth == FieldNo(cron, 2);
    assert cron.month == FieldNo(cron, 3) && cron.dayOfWeek == FieldNo(cron, 4);
  }

  /** With both days restricted the line fires exactly when the line without the one
      restriction does, or the line without the other. */
  lemma TwoDayWordsUnite(expr: string, byDay: string, byWeekday: string, zone: Zone, t: Millis)
    requires ParseCron(expr, zone).Ok? && Words(expr)[2] != "*" && Words(expr)[4] != "*"
    requires Words(byDay) == Words(expr)[4 := "*"] && Words(byWeekday) == Words(expr)[2 := "*"]
    ensures ParseCron(byDay, zone).Ok? && ParseCron(byWeekday, zone).Ok?
    ensures Fires(ParseCron(expr, zone).value, t) <==>
      Fires(ParseCron(byDay, zone).value, t) || Fires(ParseCron(byWeekday, zone).value, t)
  {
    hide Words, FieldOf, Reaches, Fires;
    StarField(DAY_OF_WEEK);
    StarField(DAY_OF_MONTH);
    FiresByWords(expr, zone, t);
    FiresByWords(byDay, zone, t);
    FiresByWords(byWeekday, zone, t);
  }

  /** Such lines can be written down. */
  function Line(words: seq<string>): string
    requires |words| == 5
  {
    words[0] + " " + (words[1] + " " + (words[2] + " " + (words[3] + " " + words[4])))
  }

  lemma LineHasItsWords(words: seq<string>)
    requires |words| == 5 && forall i :: 0 <= i < 5 ==> Solid(words[i])
    ensures Words(Line(words)) == words
  {
    hide Words;
    LastWord(words[4]);
    FirstWord(words[3], words[4]);
    var three := words[3] + " " + words[4];
    FirstWord(words[2], three);
    var two := words[2] + " " + three;
    FirstWord(words[1], two);
    FirstWord(words[0], words[1] + " " + two);
    assert words[0] + " " + (words[1] + " " + two) == Line(words);
    assert words == [words[0], words[1], words[2], words[3], words[4]];
  }

  // ----- What a segment covers -----

  datatype Base = All | Number(n: nat) | Range(first: nat, last: nat)

  function BaseText(base: Base): string {
    match base
    case All => "*"
    case Number(n) => Decimal(n)
    case Range(first, last) => Decimal(first) + "-" + Decimal(last)
  }

  function SegmentText(base: Base, step: Option<nat>): string {
    BaseText(base) + match step case None => "" case Some(k) => "/" + Decimal(k)
  }

  /** Seven is Sunday again where days of the week are meant. */
  function Meant(n: nat, kind: FieldKind): nat { if kind.sundaySeven && n == 7 then 0 else n }

  predicate InRange(n: nat, kind: FieldKind) { kind.min <= Meant(n, kind) <= kind.max }

  lemma NumberReads(n: nat, kind: FieldKind)
    requires kind.max <= U32_MAX
    ensures ParseNumber(Decimal(n), kind) == if InRange(n, kind) then Some(Meant(n, kind)) else None
  {
    assert IsDigit(Decimal(n)[0]);
  }

  lemma BaseReads(base: Base, kind: FieldKind)
    requires kind.max <= U32_MAX
    ensures '/' !in BaseText(base) && ',' !in BaseText(base)
    ensures ParseBase(BaseText(base), kind) ==
      match base
      case All => Some((kind.min, kind.max))
      case Number(n) => if InRange(n, kind) then Some((Meant(n, kind), Meant(n, kind))) else None
      case Range(first, last) =>
        if InRange(first, kind) && InRange(last, kind) && Meant(first, kind) <= Meant(last, kind)
        then Some((Meant(first, kind), Meant(last, kind))) else None
  {
    hide Decimal, ParseNumber;
    match base
    case All =>
    case Number(n) =>
      NumberReads(n, kind);
      var text := Decimal(n);
      assert IsDigit(text[0]);
      assert IndexOf(text, '-') == |text|;
    case Range(first, last) =>
      NumberReads(first, kind);
      NumberReads(last, kind);
      var x, y := Decimal(first), Decimal(last);
      IndexOfFirst(x, '-', y);
      var text := x + ['-'] + y;
      assert text == BaseText(base) && IsDigit(text[0]);
      assert text[..|x|] == x && text[|x| + 1..] == y;
  }

  /** A star covers the whole range, a number itself, a range its numbers; a step keeps
      every so-manieth of them, counted from the first. A segment with a number out of
      range, a range that falls or a step of zero is refused. */
  lemma SegmentReads(base: Base, step: Option<nat>, kind: FieldKind, v: nat)
    requires kind.max <= U32_MAX
    ensures var k, r := (match step case None => 1 case Some(x) => x), ParseSegment(SegmentText(base, step), kind);
      && (r.Some? <==>
            && 0 < k <= U32_MAX
            && match base
               case All => true
               case Number(n) => InRange(n, kind)
               case Range(first, last) => InRange(first, kind) && InRange(last, kind) && Meant(first, kind) <= Meant(last, kind))
      && (r.Some? ==>
            (r.value.Covers(v) <==>
               match base
               case All => kind.min <= v <= kind.max && (v - kind.min) % k == 0
               case Number(n) => v == Meant(n, kind)
               case Range(first, last) => Meant(first, kind) <= v <= Meant(last, kind) && (v - Meant(first, kind)) % k == 0))
  {
    hide SegmentText, ParseSegment, ParseBase, BaseText, InRange, Meant;
    BaseReads(base, kind);
    StepReads(base, step, kind);
    if base.Number? && v == Meant(base.n, kind) { assert v - Meant(base.n, kind) == 0; }
  }

  lemma StepReads(base: Base, step: Option<nat>, kind: FieldKind)
    requires '/' !in BaseText(base)
    ensures var k, range := (match step case None => 1 case Some(x) => x), ParseBase(BaseText(base), kind);
      ParseSegment(SegmentText(base, step), kind) ==
        if 0 < k <= U32_MAX && range.Some? then Some(Segment(range.value.0, range.value.1, k)) else None
  {
    hide Decimal, ParseBase, BaseText;
    var text, b := SegmentText(base, step), BaseText(base);
    match step
    case None =>
      assert text == b && IndexOf(b, '/') == |b| && b[..|b|] == b;
    case Some(k) =>
      IndexOfFirst(b, '/', Decimal(k));
      assert text == b + ['/'] + Decimal(k);
      assert text[..|b|] == b && text[|b| + 1..] == Decimal(k);
      assert ParseU32(Decimal(k)) == if k <= U32_MAX then Some(k) else None by { assert IsDigit(Decimal(k)[0]); }
  }

  // ----- Whole schedules -----

  /** No space at either end. */
  predicate Trimmed(s: string) { s != "" && !IsWhitespace(s[0]) && !IsWhitespace(s[|s| - 1]) }

  lemma TrimmedStays(s: string)
    requires Trimmed(s)
    ensures Trim(s) == s
  {}

  /** A number and a unit are an interval of so many seconds, minutes, hours or days, cut
      off at the largest time. */
  lemma IntervalReads(n: nat, unit: char, zones: ZoneDb)
    requires unit in {'s', 'm', 'h', 'd'} && 0 < n <= I64_MAX
    ensures var seconds := if unit == 's' then 1 else if unit == 'm' then 60 else if unit == 'h' then 60 * 60 else 24 * 60 * 60;
      var ms := n * seconds * 1_000;
      ParseSchedule(Decimal(n) + [unit], zones) == Ok(Every(if ms <= I64_MAX then ms else I64_MAX))
  {
    hide Decimal, Trim;
    var text := Decimal(n) + [unit];
    assert IsDigit(text[0]);
    TrimmedStays(text);
    assert text[..|text| - 1] == Decimal(n);
    assert text[0] != 'c';
  }

  /** Behind "cron:" stands a line for UTC, or a zone and a line for it. */
  lemma CronTextReads(line: string, name: string, zones: ZoneDb)
    requires Trimmed(line) && Trimmed(name) && ';' !in name && !("tz=" <= line)
    ensures ParseSchedule("cron:" + line, zones) ==
      match ParseCron(line, zones.utc) case Ok(c) => Ok(OnCron(c)) case Err(e) => Err(e)
    ensures ParseSchedule("cron:tz=" + name + ";" + line, zones) ==
      match zones.named(name)
      case None => Err(BadSchedule)
      case Some(zone) => match ParseCron(line, zone) case Ok(c) => Ok(OnCron(c)) case Err(e) => Err(e)
  {
    hide ParseCronText, ParseSchedule, IsWhitespace;
    CronPrefixReads(line, zones);
    PlainTextReads(line, zones);
    var raw := "tz=" + (name + [';'] + line);
    assert raw[0] == 't' && raw[|raw| - 1] == line[|line| - 1];
    CronPrefixReads(raw, zones);
    ZonedTextReads(line, name, zones);
    assert "cron:" + raw == "cron:tz=" + name + ";" + line;
  }

  lemma CronPrefixReads(raw: string, zones: ZoneDb)
    requires raw != "" && !IsWhitespace(raw[|raw| - 1])
    ensures ParseSchedule("cron:" + raw, zones) ==
      match ParseCronText(raw, zones) case Ok(c) => Ok(OnCron(c)) case Err(e) => Err(e)
  {
    hide Trim, ParseCronText;
    var text := "cron:" + raw;
    assert text[0] == 'c' && text[|text| - 1] == raw[|raw| - 1];
    TrimmedStays(text);
    assert text[5..] == raw;
  }

  lemma PlainTextReads(line: string, zones: ZoneDb)
    requires Trimmed(line) && !("tz=" <= line)
    ensures ParseCronText(line, zones) == ParseCron(line, zones.utc)
  {
    hide Trim, ParseCron;
    TrimmedStays(line);
  }

  lemma ZonedTextReads(line: string, name: string, zones: ZoneDb)
    requires Trimmed(line) && Trimmed(name) && ';' !in name
    ensures ParseCronText("tz=" + (name + [';'] + line), zones) ==
      match zones.named(name)
      case None => Err(BadSchedule)
      case Some(zone) => ParseCron(line, zone)
  {
    hide Trim, ParseCron;
    var rest := name + [';'] + line;
    var raw := "tz=" + rest;
    assert raw[0] == 't' && raw[|raw| - 1] == line[|line| - 1];
    TrimmedStays(raw);
    TrimmedStays(line);
    TrimmedStays(name);
    assert raw[3..] == rest;
    IndexOfFirst(name, ';', line);
    assert rest[..|name|] == name && rest[|name| + 1..] == line;
  }
}
