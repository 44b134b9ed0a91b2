/** Cron schedules: parsing an expression, which minutes it matches, and the bounded
    search for the next one, measured against the Gregorian calendar. Times are minutes
    since 0000-01-01 00:00. */
module CronSchedule {
  import opened Ordering
  import opened Text
  import opened Calendar
  import Field = CronField
  import opened Wrappers

  // ------------------------------------------------------------------------- parsing

  datatype Schedule = Schedule(
    minute: seq<nat>, hour: seq<nat>, dayOfMonth: seq<nat>, month: seq<nat>, dayOfWeek: seq<nat>,
    domRestricted: bool, dowRestricted: bool)

  datatype ParseError = FieldCount(count: nat) | InField(error: Field.Error) | NoValues

  datatype Parsed = Ok(schedule: Schedule) | Err(error: ParseError)

  /** The text up to the first white space. */
  function Word(s: string): (w: string)
    ensures |w| <= |s|
  {
    if s == "" || IsSpace(s[0]) then "" else [s[0]] + Word(s[1..])
  }

  function Words(s: string): seq<string>
    decreases |s|
  {
    if s == "" then []
    else if IsSpace(s[0]) then Words(s[1..])
    else [Word(s)] + Words(s[|Word(s)|..])
  }

  function Parse(expr: string): Parsed {
    var fields := Words(expr);
    if |fields| != 5 then Err(FieldCount(|fields|))
    else FromFields(
      Field.ParseField(fields[0], 0, 59), Field.ParseField(fields[1], 0, 23), Field.ParseField(fields[2], 1, 31),
      Field.ParseField(fields[3], 1, 12), Field.ParseField(fields[4], 0, 6))
  }

  type FieldResult = Field.Result<(seq<nat>, bool)>

  /** The first field in error decides. */
  function FromFields(minute: FieldResult, hour: FieldResult, dom: FieldResult, month: FieldResult, dow: FieldResult): Parsed {
    if minute.Err? then Err(InField(minute.error))
    else if hour.Err? then Err(InField(hour.error))
    else if dom.Err? then Err(InField(dom.error))
    else if month.Err? then Err(InField(month.error))
    else if dow.Err? then Err(InField(dow.error))
    else if minute.value.0 == [] || hour.value.0 == [] || dom.value.0 == [] || month.value.0 == [] || dow.value.0 == []
    then Err(NoValues)
    else Ok(Schedule(minute.value.0, hour.value.0, dom.value.0, month.value.0, dow.value.0, dom.value.1, dow.value.1))
  }

  predicate HasIn(values: seq<nat>, min: nat, max: nat) { exists v :: v in values && min <= v <= max }

  predicate HasAll(values: seq<nat>, min: nat, max: nat) { forall v :: min <= v <= max ==> v in values }

  /** What parsing guarantees of a schedule. */
  predicate IsSchedule(s: Schedule) {
    && HasIn(s.minute, 0, 59) && HasIn(s.hour, 0, 23) && HasIn(s.dayOfMonth, 1, 31)
    && HasIn(s.month, 1, 12) && HasIn(s.dayOfWeek, 0, 6)
    && (!s.domRestricted ==> HasAll(s.dayOfMonth, 1, 31))
    && (!s.dowRestricted ==> HasAll(s.dayOfWeek, 0, 6))
  }

  predicate IsFilled(r: FieldResult, min: nat, max: nat) {
    r.Ok? ==> HasIn(r.value.0, min, max) && (!r.value.1 ==> HasAll(r.value.0, min, max))
  }

  lemma ParsedFieldHasValue(field: string, min: nat, max: nat)
    requires min <= max < 100
    ensures IsFilled(Field.ParseField(field, min, max), min, max)
  {
    if Field.ParseField(field, min, max).Ok? {
      var parsed := Field.ParseField(field, min, max).value;
      if field == "*" {
        IntervalIsRange(min, max);
        assert min in parsed.0;
      } else {
        var parts := Split(field, ',');
        Field.FieldFailsExactlyWhen(parts, min, max);
        Field.PartFits(parts[0], min, max);
        var span := Field.ParsePart(parts[0], min, max).value;
        assert Field.Collect(span.lo, span.hi, span.step)[0] == span.lo;
        assert Field.PartCollects(parts[0], min, max, span.lo);
        Field.FieldIsUnion(field, min, max, span.lo);
      }
    }
  }

  lemma FilledIsSchedule(minute: FieldResult, hour: FieldResult, dom: FieldResult, month: FieldResult, dow: FieldResult)
    requires IsFilled(minute, 0, 59) && IsFilled(hour, 0, 23) && IsFilled(dom, 1, 31)
    requires IsFilled(month, 1, 12) && IsFilled(dow, 0, 6)
    ensures FromFields(minute, hour, dom, month, dow).Ok? ==> IsSchedule(FromFields(minute, hour, dom, month, dow).schedule)
    ensures FromFields(minute, hour, dom, month, dow) != Err(NoValues)
  {
  }

  /** Every parsed schedule has a value within bounds in each field, so the final check for
      a field without values never fails a parse. */
  lemma ParsedIsSchedule(expr: string)
    ensures Parse(expr).Ok? ==> IsSchedule(Parse(expr).schedule)
    ensures Parse(expr) != Err(NoValues)
  {
    var fields := Words(expr);
    if |fields| == 5 {
      ParsedFieldHasValue(fields[0], 0, 59);
      ParsedFieldHasValue(fields[1], 0, 23);
      ParsedFieldHasValue(fields[2], 1, 31);
      ParsedFieldHasValue(fields[3], 1, 12);
      ParsedFieldHasValue(fields[4], 0, 6);
      FilledIsSchedule(
        Field.ParseField(fields[0], 0, 59), Field.ParseField(fields[1], 0, 23), Field.ParseField(fields[2], 1, 31),
        Field.ParseField(fields[3], 1, 12), Field.ParseField(fields[4], 0, 6));
    }
  }

  predicate FieldsParse(fields: seq<string>)
    requires |fields| == 5
  {
    && Field.ParseField(fields[0], 0, 59).Ok? && Field.ParseField(fields[1], 0, 23).Ok?
    && Field.ParseField(fields[2], 1, 31).Ok? && Field.ParseField(fields[3], 1, 12).Ok?
    && Field.ParseField(fields[4], 0, 6).Ok?
  }

  /** A text parses exactly if it has five words, each of which parses as its field; the count
      of the words is looked at first, then the fields in order. */
  lemma ParsesExactlyWhen(expr: string)
    ensures Parse(expr).Ok? <==> |Words(expr)| == 5 && FieldsParse(Words(expr))
    ensures |Words(expr)| != 5 ==> Parse(expr) == Err(FieldCount(|Words(expr)|))
    ensures |Words(expr)| == 5 && Field.ParseField(Words(expr)[0], 0, 59).Err? ==>
      Parse(expr) == Err(InField(Field.ParseField(Words(expr)[0], 0, 59).error))
    ensures Parse(expr).Ok? ==> var s, words := Parse(expr).schedule, Words(expr);
      && s.minute == Field.ParseField(words[0], 0, 59).value.0 && s.hour == Field.ParseField(words[1], 0, 23).value.0
      && (s.dayOfMonth, s.domRestricted) == Field.ParseField(words[2], 1, 31).value
      && s.month == Field.ParseField(words[3], 1, 12).value.0
      && (s.dayOfWeek, s.dowRestricted) == Field.ParseField(words[4], 0, 6).value
  {
    ParsedIsSchedule(expr);
  }

  // ------------------------------------------------------------------------ matching

  const MINUTES_PER_DAY: nat := 1440

  /** Day-of-month and day-of-week both restricted: either will do. Otherwise both must hold. */
  predicate MatchesDay(s: Schedule, day: nat) {
    var date := DateOf(day);
    var domOk := date.day in s.dayOfMonth;
    var dowOk := Weekday(day) in s.dayOfWeek;
    && date.month in s.month
    && if s.domRestricted && s.dowRestricted then domOk || dowOk else domOk && dowOk
  }

  predicate Matches(s: Schedule, t: nat) {
    && t % 60 in s.minute
    && t % MINUTES_PER_DAY / 60 in s.hour
    && MatchesDay(s, t / MINUTES_PER_DAY)
  }

  /** The least matching minute from `t` on, before `limit`. */
  function FirstMatch(s: Schedule, t: nat, limit: nat): Option<nat>
    decreases limit - t
  {
    if t >= limit then None
    else if Matches(s, t) then Some(t)
    else FirstMatch(s, t + 1, limit)
  }

  const WINDOW: nat := 366 * MINUTES_PER_DAY

  function Start(from: nat): nat { from / 60 + 1 }

  /** The next run after an instant, given in seconds. */
  function NextAfter(s: Schedule, from: nat): Option<nat> { FirstMatch(s, Start(from), Start(from) + WINDOW) }

  method RunNextAfter(s: Schedule, from: nat) returns (r: Option<nat>)
    ensures r == NextAfter(s, from)
    ensures r.Some? ==> from / 60 < r.value && Matches(s, r.value)
    ensures r.Some? ==> forall u :: from / 60 < u < r.value ==> !Matches(s, u)
    ensures r.Some? ==> r.value <= from / 60 + 527040
    ensures r.None? ==> forall u :: from / 60 < u <= from / 60 + 527040 ==> !Matches(s, u)
  {
    var start := from / 60 + 1;
    var limit := start + WINDOW;
    var t := start;
    while t < limit
      invariant start <= t <= limit
      invariant FirstMatch(s, t, limit) == NextAfter(s, from)
      invariant forall u :: start <= u < t ==> !Matches(s, u)
    {
      if Matches(s, t) {
        return Some(t);
      }
      t := t + 1;
    }
    r := None;
  }

  lemma {:induction false} FirstMatchIsLeast(s: Schedule, t: nat, limit: nat, u: nat)
    requires t <= u < limit && Matches(s, u)
    ensures FirstMatch(s, t, limit).Some? && t <= FirstMatch(s, t, limit).value <= u
    ensures Matches(s, FirstMatch(s, t, limit).value)
    decreases limit - t
  {
    if Matches(s, t) {
    } else {
      FirstMatchIsLeast(s, t + 1, limit, u);
    }
  }

  lemma {:induction false} FirstMatchMatches(s: Schedule, t: nat, limit: nat)
    ensures FirstMatch(s, t, limit).Some? ==>
      t <= FirstMatch(s, t, limit).value < limit && Matches(s, FirstMatch(s, t, limit).value)
    decreases limit - t
  {
    if t >= limit || Matches(s, t) {
    } else {
      FirstMatchMatches(s, t + 1, limit);
    }
  }

  // --------------------------------------------------------------------- enumeration

  /** The first `n` runs found by searching again from each run. */
  function Runs(s: Schedule, from: nat, n: nat): seq<nat>
    decreases n
  {
    if n == 0 then []
    else
      match NextAfter(s, from)
      case None => []
      case Some(t) => [t] + Runs(s, 60 * t, n - 1)
  }

  /** Searching from run to run visits matching minutes only, and skips none it passes. */
  lemma {:induction false} RunsSkipNothing(s: Schedule, from: nat, n: nat, u: nat)
    requires Runs(s, from, n) != [] && from / 60 < u <= Runs(s, from, n)[|Runs(s, from, n)| - 1]
    ensures u in Runs(s, from, n) <==> Matches(s, u)
    decreases n
  {
    var t := NextAfter(s, from).value;
    var rest := Runs(s, 60 * t, n - 1);
    FirstMatchMatches(s, Start(from), Start(from) + WINDOW);
    if Matches(s, u) && u < t {
      FirstMatchIsLeast(s, Start(from), Start(from) + WINDOW, u);
    }
    if u > t {
      assert rest[|rest| - 1] == Runs(s, from, n)[|Runs(s, from, n)| - 1];
      RunsSkipNothing(s, 60 * t, n - 1, u);
    } else if rest != [] {
      RunsLieAfter(s, 60 * t, n - 1);
    }
  }

  lemma {:induction false} RunsLieAfter(s: Schedule, from: nat, n: nat)
    ensures forall i :: 0 <= i < |Runs(s, from, n)| ==> from / 60 < Runs(s, from, n)[i]
    decreases n
  {
    if n == 0 || !NextAfter(s, from).Some? {
    } else {
      FirstMatchMatches(s, Start(from), Start(from) + WINDOW);
      RunsLieAfter(s, 60 * NextAfter(s, from).value, n - 1);
    }
  }

  // ------------------------------------------------------------------ when it gives up

  /** The schedule's months and days of the month include a date of every common year. */
  predicate AllowsCommonDate(s: Schedule) {
    exists m, d :: m in s.month && d in s.dayOfMonth && IsCommonDate(m, d)
  }

  predicate IsCommonDate(m: nat, d: nat) { 1 <= m <= 12 && 1 <= d <= CommonMonthLength(m) }

  function At(date: Date, hour: nat, minute: nat): nat
    requires date.day >= 1
  {
    DayNumber(date) * 1440 + hour * 60 + minute
  }

  /** A time of a day at most 365 days on is within the window. */
  lemma WithinWindow(start: nat, day: nat, x: nat)
    requires x < MINUTES_PER_DAY && day <= start / MINUTES_PER_DAY + 365
    ensures day * MINUTES_PER_DAY + x < start + WINDOW
  {
  }

  /** The year an instant falls in contains its day. */
  lemma YearOfInstant(start: nat) returns (y: nat)
    ensures DaysBeforeYear(y) <= start / MINUTES_PER_DAY < DaysBeforeYear(y + 1)
  {
    var today := DateOf(start / MINUTES_PER_DAY);
    DateOfDay(start / MINUTES_PER_DAY);
    DateLiesInYear(today);
    y := today.year;
  }

  /** Every date of a common year occurs in every 366 days. */
  lemma CommonDateRecurs(start: nat, m: nat, d: nat, x: nat) returns (y: nat)
    requires IsCommonDate(m, d) && x < MINUTES_PER_DAY
    ensures start <= DayNumber(Date(y, m, d)) * MINUTES_PER_DAY + x < start + WINDOW
  {
    y := YearOfInstant(start);
    var day := DayNumber(Date(y, m, d));
    DateLiesInYear(Date(y, m, d));
    if day * MINUTES_PER_DAY + x >= start {
      WithinWindow(start, day, x);
    } else {
      YearLater(y, m, d);
      DateLiesInYear(Date(y + 1, m, d));
      y := y + 1;
    }
  }

  /** Any weekday falls on one of seven days in a row of a month. */
  lemma WeekdayInMonth(y: nat, m: nat, first: nat, w: nat) returns (date: Date)
    requires 1 <= m <= 12 && 1 <= first <= 8 && w < 7
    ensures IsDate(date) && date.year == y && date.month == m && Weekday(DayNumber(date)) == w
    ensures DayNumber(Date(y, m, first)) <= DayNumber(date) < DayNumber(Date(y, m, first)) + 7
  {
    var k := WeekdayFalls(DayNumber(Date(y, m, first)), w);
    date := Date(y, m, first + k);
  }

  /** Every weekday occurs in any named month within every 366 days. */
  lemma WeekdayRecurs(start: nat, m: nat, w: nat, x: nat) returns (date: Date)
    requires 1 <= m <= 12 && w < 7 && x < MINUTES_PER_DAY
    ensures IsDate(date) && date.month == m && Weekday(DayNumber(date)) == w
    ensures start <= DayNumber(date) * MINUTES_PER_DAY + x < start + WINDOW
  {
    var y := YearOfInstant(start);
    date := WeekdayInMonth(y, m, 8, w);
    DateLiesInYear(date);
    if DayNumber(date) * MINUTES_PER_DAY + x < start {
      YearLater(y, m, 1);
      assert DayNumber(Date(y, m, 8)) == DayNumber(Date(y, m, 1)) + 7;
      date := WeekdayInMonth(y + 1, m, 1, w);
      DateLiesInYear(date);
    }
    WithinWindow(start, DayNumber(date), x);
  }

  lemma ClockTime(day: nat, hour: nat, minute: nat)
    requires hour < 24 && minute < 60
    ensures var t := day * MINUTES_PER_DAY + hour * 60 + minute;
      t / MINUTES_PER_DAY == day && t % MINUTES_PER_DAY / 60 == hour && t % 60 == minute
  {
    DayTime(day, hour * 60 + minute);
    SixtyTimes(hour, minute);
    assert day * MINUTES_PER_DAY + hour * 60 == 60 * (24 * day + hour);
    SixtyTimes(24 * day + hour, minute);
  }

  lemma SixtyTimes(n: nat, r: nat)
    requires r < 60
    ensures (60 * n + r) % 60 == r && (60 * n + r) / 60 == n
  {
  }

  lemma DayTime(day: nat, x: nat)
    requires x < MINUTES_PER_DAY
    ensures (day * MINUTES_PER_DAY + x) / MINUTES_PER_DAY == day && (day * MINUTES_PER_DAY + x) % MINUTES_PER_DAY == x
  {
  }

  lemma MatchesAt(s: Schedule, date: Date, hour: nat, minute: nat)
    requires IsDate(date) && hour < 24 && minute < 60
    ensures var t := At(date, hour, minute);
      Matches(s, t) <==> minute in s.minute && hour in s.hour && MatchesDay(s, DayNumber(date))
  {
    var t := At(date, hour, minute);
    ClockTime(DayNumber(date), hour, minute);
  }

  /** What a schedule matches, told from the clock and the calendar: the minute, the hour and
      the month are listed, and so is the day of the month or the day of the week, whichever is
      restricted; either of them if both are. */
  lemma MatchesTheClock(s: Schedule, date: Date, hour: nat, minute: nat)
    requires IsSchedule(s) && IsDate(date) && hour < 24 && minute < 60
    ensures var byDate, byWeekday := date.day in s.dayOfMonth, Weekday(DayNumber(date)) in s.dayOfWeek;
      Matches(s, (DayNumber(date) * 24 + hour) * 60 + minute) <==>
        && minute in s.minute && hour in s.hour && date.month in s.month
        && (s.domRestricted && s.dowRestricted ==> byDate || byWeekday)
        && (s.domRestricted && !s.dowRestricted ==> byDate)
        && (!s.domRestricted && s.dowRestricted ==> byWeekday)
  {
    MatchesAt(s, date, hour, minute);
    DayOfDate(date);
    assert At(date, hour, minute) == (DayNumber(date) * 24 + hour) * 60 + minute;
  }

  /** A schedule restricted by weekday, or allowing a date of common years, always finds
      its next run. */
  lemma AlwaysFinds(s: Schedule, from: nat)
    requires IsSchedule(s) && (s.dowRestricted || AllowsCommonDate(s))
    ensures NextAfter(s, from).Some?
  {
    var hour :| hour in s.hour && 0 <= hour <= 23;
    var minute :| minute in s.minute && 0 <= minute <= 59;
    var x := hour * 60 + minute;
    var date: Date;
    if s.dowRestricted {
      var m :| m in s.month && 1 <= m <= 12;
      var w :| w in s.dayOfWeek && 0 <= w <= 6;
      date := WeekdayRecurs(Start(from), m, w, x);
      WeekdayMatches(s, date);
    } else {
      var m, d :| m in s.month && d in s.dayOfMonth && IsCommonDate(m, d);
      var y := CommonDateRecurs(Start(from), m, d, x);
      date := Date(y, m, d);
      DateMatches(s, date);
    }
    MatchesAt(s, date, hour, minute);
    FirstMatchIsLeast(s, Start(from), Start(from) + WINDOW, At(date, hour, minute));
  }

  lemma WeekdayMatches(s: Schedule, date: Date)
    requires IsSchedule(s) && s.dowRestricted && IsDate(date)
    requires date.month in s.month && Weekday(DayNumber(date)) in s.dayOfWeek
    ensures MatchesDay(s, DayNumber(date))
  {
    DayOfDate(date);
  }

  lemma DateMatches(s: Schedule, date: Date)
    requires IsSchedule(s) && !s.dowRestricted && IsDate(date)
    ensures MatchesDay(s, DayNumber(date)) <==> date.month in s.month && date.day in s.dayOfMonth
  {
    DayOfDate(date);
  }

  /** Such a schedule can only match on a leap day. */
  lemma OnlyLeapDays(s: Schedule, day: nat)
    requires IsSchedule(s) && !s.dowRestricted && !AllowsCommonDate(s) && MatchesDay(s, day)
    ensures DateOf(day).month == 2 && DateOf(day).day == 29
  {
    var date := DateOf(day);
    DateOfDay(day);
    DateMatches(s, date);
    assert !IsCommonDate(date.month, date.day);
  }

  lemma YearsApart(y: nat, z: nat)
    requires y < z
    ensures DaysBeforeYear(y) + 365 <= DaysBeforeYear(z)
  {
    YearsAscend(y, z);
  }

  lemma LeapDayIs(date: Date)
    requires IsDate(date) && date.month == 2 && date.day == 29
    ensures IsLeap(date.year) && DayNumber(date) == DaysBeforeYear(date.year) + 59
  {
    assert DaysBeforeMonth(date.year, 2) == 31;
  }

  /** A leap day within 366 days from a first of January falls in that same year. */
  lemma LeapDayWithin(y: nat, date: Date)
    requires IsDate(date) && date.month == 2 && date.day == 29
    requires DaysBeforeYear(y) <= DayNumber(date) <= DaysBeforeYear(y) + 365
    ensures date.year == y
  {
    LeapDayIs(date);
    if date.year < y {
      YearsApart(date.year, y);
    } else if date.year > y {
      YearsApart(y, date.year);
    }
  }

  /** A search that starts with the first of January of a common year meets no leap day. */
  lemma MeetsNoLeapDay(y: nat, day: nat)
    requires !IsLeap(y) && DaysBeforeYear(y) <= day <= DaysBeforeYear(y) + 365
    ensures DateOf(day).month != 2 || DateOf(day).day != 29
  {
    DateOfDay(day);
    if DateOf(day).month == 2 && DateOf(day).day == 29 {
      LeapDayIs(DateOf(day));
      LeapDayWithin(y, DateOf(day));
    }
  }

  /** Just before the new year of year 1. */
  function EveOfCommonYear(): nat { 60 * (DaysBeforeYear(1) * MINUTES_PER_DAY - 1) }

  lemma {:induction false} NoMatchOnWindow(s: Schedule, t: nat, limit: nat)
    requires IsSchedule(s) && !s.dowRestricted && !AllowsCommonDate(s)
    requires DaysBeforeYear(1) * MINUTES_PER_DAY <= t <= limit == (DaysBeforeYear(1) + 366) * MINUTES_PER_DAY
    ensures FirstMatch(s, t, limit).None?
    decreases limit - t
  {
    if t >= limit {
    } else {
      MeetsNoLeapDay(1, t / MINUTES_PER_DAY);
      if MatchesDay(s, t / MINUTES_PER_DAY) {
        OnlyLeapDays(s, t / MINUTES_PER_DAY);
      }
      NoMatchOnWindow(s, t + 1, limit);
    }
  }

  /** The search gives up from some instant if and only if the weekday is unrestricted and
      the months and days name no date of a common year. */
  lemma GivesUpExactlyWhen(s: Schedule)
    requires IsSchedule(s)
    ensures (exists from: nat :: NextAfter(s, from).None?) <==> !s.dowRestricted && !AllowsCommonDate(s)
  {
    if s.dowRestricted || AllowsCommonDate(s) {
      forall from: nat ensures NextAfter(s, from).Some? {
        AlwaysFinds(s, from);
      }
    } else {
      var from := EveOfCommonYear();
      NoMatchOnWindow(s, Start(from), Start(from) + WINDOW);
      assert NextAfter(s, from).None?;
    }
  }

  ghost predicate MatchesAfter(s: Schedule, t: nat) { exists u: nat :: u > t && Matches(s, u) }

  predicate AllowsLeapDay(s: Schedule) { 2 in s.month && 29 in s.dayOfMonth }

  /** `None` means that the schedule never fires again if and only if the weekday is
      restricted, a date of common years is allowed, or the leap day is not. */
  lemma NoneIsRightExactlyWhen(s: Schedule)
    requires IsSchedule(s)
    ensures (forall from: nat :: NextAfter(s, from).None? ==> !MatchesAfter(s, from / 60))
       <==> s.dowRestricted || AllowsCommonDate(s) || !AllowsLeapDay(s)
  {
    if s.dowRestricted || AllowsCommonDate(s) {
      forall from: nat ensures NextAfter(s, from).Some? {
        AlwaysFinds(s, from);
      }
    } else if !AllowsLeapDay(s) {
      forall t: nat ensures !Matches(s, t) {
        NeverMatches(s, t);
      }
    } else {
      GivesUpExactlyWhen(s);
      var from: nat :| NextAfter(s, from).None?;
      LeapDayComes(s, from / 60);
    }
  }

  lemma NeverMatches(s: Schedule, t: nat)
    requires IsSchedule(s) && !s.dowRestricted && !AllowsCommonDate(s) && !AllowsLeapDay(s)
    ensures !Matches(s, t)
  {
    var day := t / MINUTES_PER_DAY;
    if MatchesDay(s, day) {
      OnlyLeapDays(s, day);
    }
  }

  lemma LeapDayComes(s: Schedule, t: nat)
    requires IsSchedule(s) && !s.dowRestricted && AllowsLeapDay(s)
    ensures MatchesAfter(s, t)
  {
    var hour :| hour in s.hour && 0 <= hour <= 23;
    var minute :| minute in s.minute && 0 <= minute <= 59;
    var date := Date(400 * (t + 1), 2, 29);
    LeapEveryFourCenturies(t + 1);
    DateMatches(s, date);
    MatchesAt(s, date, hour, minute);
    YearsPass(date.year);
    DateLiesInYear(date);
    assert At(date, hour, minute) > t;
  }

  lemma LeapEveryFourCenturies(k: nat)
    ensures IsLeap(400 * k)
  {
    assert 400 * k == 4 * (100 * k);
  }

  lemma {:induction false} YearsPass(y: nat)
    ensures DaysBeforeYear(y) >= y
  {
    if y == 0 {
    } else {
      YearsPass(y - 1);
    }
  }

  // ------------------------------------------------------- what an expression means

  /** The five fields as a user means them. */
  datatype Expression = Expression(
    minute: seq<Field.Item>, hour: seq<Field.Item>, dayOfMonth: seq<Field.Item>,
    month: seq<Field.Item>, dayOfWeek: seq<Field.Item>)

  predicate IsFieldWithin(items: seq<Field.Item>, min: nat, max: nat) {
    Field.IsField(items) && Field.AllInBounds(items, min, max)
  }

  predicate IsExpression(e: Expression) {
    && IsFieldWithin(e.minute, 0, 59) && IsFieldWithin(e.hour, 0, 23) && IsFieldWithin(e.dayOfMonth, 1, 31)
    && IsFieldWithin(e.month, 1, 12) && IsFieldWithin(e.dayOfWeek, 0, 6)
  }

  function Fields(e: Expression): seq<string> {
    [Field.RenderField(e.minute), Field.RenderField(e.hour), Field.RenderField(e.dayOfMonth),
     Field.RenderField(e.month), Field.RenderField(e.dayOfWeek)]
  }

  const ANY: seq<Field.Item> := [Field.Item(Field.Star, None)]

  /** The minutes an expression means: those whose minute, hour and month it names, on the
      days it names by date and by weekday, or by either if it restricts both. */
  predicate Means(e: Expression, t: nat)
    requires IsExpression(e)
  {
    var date := DateOf(t / 1440);
    var byDate := Field.Denotes(e.dayOfMonth, 1, 31, date.day);
    var byWeekday := Field.Denotes(e.dayOfWeek, 0, 6, Weekday(t / 1440));
    && Field.Denotes(e.minute, 0, 59, t % 60)
    && Field.Denotes(e.hour, 0, 23, t % 1440 / 60)
    && Field.Denotes(e.month, 1, 12, date.month)
    && if e.dayOfMonth != ANY && e.dayOfWeek != ANY then byDate || byWeekday else byDate && byWeekday
  }

  predicate NoSpaces(s: string) { forall i :: 0 <= i < |s| ==> !IsSpace(s[i]) }

  lemma {:induction false} WordThenSpace(a: string, b: string)
    requires NoSpaces(a) && (b == "" || IsSpace(b[0]))
    ensures Word(a + b) == a
  {
    if a == "" {
      assert a + b == b;
    } else {
      assert (a + b)[1..] == a[1..] + b;
      WordThenSpace(a[1..], b);
    }
  }

  /** Words joined with single spaces are found again. */
  lemma {:induction false} WordsOfJoin(words: seq<string>)
    requires forall i :: 0 <= i < |words| ==> words[i] != "" && NoSpaces(words[i])
    ensures Words(Join(words, ' ')) == words
  {
    if words == [] {
    } else {
      var a, rest := words[0], Join(words[1..], ' ');
      WordsOfJoin(words[1..]);
      if |words| == 1 {
        WordThenSpace(a, "");
        assert a + "" == a;
      } else {
        WordThenSpace(a, [' '] + rest);
        assert a + ([' '] + rest) == Join(words, ' ');
        assert Join(words, ' ')[|a|..] == [' '] + rest;
        assert ([' '] + rest)[1..] == rest;
      }
    }
  }

  lemma NumeralHasNoSpaces(text: string)
    requires Field.IsNumeral(text)
    ensures NoSpaces(text) && text != ""
  {
    Field.NumeralChars(text);
  }

  lemma SumHasNoSpaces(a: string, separator: string, b: string)
    requires NoSpaces(a) && NoSpaces(separator) && NoSpaces(b)
    ensures NoSpaces(a + separator + b)
  {
  }

  lemma BaseHasNoSpaces(base: Field.Base)
    requires Field.IsItem(Field.Item(base, None))
    ensures NoSpaces(Field.RenderBase(base)) && Field.RenderBase(base) != ""
  {
    match base {
      case Star =>
      case One(text) => NumeralHasNoSpaces(text);
      case Between(first, last) =>
        NumeralHasNoSpaces(first);
        NumeralHasNoSpaces(last);
        SumHasNoSpaces(first, "-", last);
    }
  }

  lemma ItemHasNoSpaces(item: Field.Item)
    requires Field.IsItem(item)
    ensures NoSpaces(Field.RenderItem(item)) && Field.RenderItem(item) != ""
  {
    BaseHasNoSpaces(item.base);
    if item.step.Some? {
      NumeralHasNoSpaces(item.step.value);
      SumHasNoSpaces(Field.RenderBase(item.base), "/", item.step.value);
    }
  }

  lemma {:induction false} JoinHasNoSpaces(items: seq<Field.Item>)
    requires Field.IsField(items)
    ensures NoSpaces(Field.RenderField(items)) && Field.RenderField(items) != ""
  {
    ItemHasNoSpaces(items[0]);
    if |items| <= 1 {
    } else {
      JoinHasNoSpaces(items[1..]);
    }
  }

  /** Every expression has a text: its fields joined by spaces. */
  lemma FieldsAreWords(e: Expression)
    requires IsExpression(e)
    ensures Words(Join(Fields(e), ' ')) == Fields(e)
  {
    JoinHasNoSpaces(e.minute);
    JoinHasNoSpaces(e.hour);
    JoinHasNoSpaces(e.dayOfMonth);
    JoinHasNoSpaces(e.month);
    JoinHasNoSpaces(e.dayOfWeek);
    WordsOfJoin(Fields(e));
  }

  /** A written field, parsed. */
  ghost function ReadBack(items: seq<Field.Item>, min: nat, max: nat): (seq<nat>, bool)
    requires IsFieldWithin(items, min, max) && min <= max < 100
  {
    Field.FieldAcceptedExactlyWhen(items, min, max);
    Field.ParseField(Field.RenderField(items), min, max).value
  }

  lemma ReadBackParses(items: seq<Field.Item>, min: nat, max: nat)
    requires IsFieldWithin(items, min, max) && min <= max < 100
    ensures Field.ParseField(Field.RenderField(items), min, max) == Field.Ok(ReadBack(items, min, max))
    ensures ReadBack(items, min, max).0 != []
  {
    Field.FieldAcceptedExactlyWhen(items, min, max);
    ParsedFieldHasValue(Field.RenderField(items), min, max);
  }

  lemma ReadBackMeans(items: seq<Field.Item>, min: nat, max: nat, v: nat)
    requires IsFieldWithin(items, min, max) && min <= max < 100
    ensures v in ReadBack(items, min, max).0 <==> Field.Denotes(items, min, max, v)
    ensures ReadBack(items, min, max).1 <==> items != ANY
  {
    Field.FieldRoundTrip(items, min, max, v);
  }

  /** A text whose words are the fields of an expression parses, field by field. */
  lemma WrittenParses(text: string, e: Expression)
    requires IsExpression(e) && Words(text) == Fields(e)
    ensures var dom, dow := ReadBack(e.dayOfMonth, 1, 31), ReadBack(e.dayOfWeek, 0, 6);
      Parse(text) == Ok(Schedule(
        ReadBack(e.minute, 0, 59).0, ReadBack(e.hour, 0, 23).0, dom.0, ReadBack(e.month, 1, 12).0, dow.0, dom.1, dow.1))
  {
    ReadBackParses(e.minute, 0, 59);
    ReadBackParses(e.hour, 0, 23);
    ReadBackParses(e.dayOfMonth, 1, 31);
    ReadBackParses(e.month, 1, 12);
    ReadBackParses(e.dayOfWeek, 0, 6);
  }

  /** Such a text parses, and its schedule matches exactly the minutes the expression means. */
  lemma MatchesWhatIsMeant(text: string, e: Expression, t: nat)
    requires IsExpression(e) && Words(text) == Fields(e)
    ensures Parse(text).Ok? && (Matches(Parse(text).schedule, t) <==> Means(e, t))
  {
    var day := t / MINUTES_PER_DAY;
    WrittenParses(text, e);
    ReadBackMeans(e.minute, 0, 59, t % 60);
    ReadBackMeans(e.hour, 0, 23, t % MINUTES_PER_DAY / 60);
    ReadBackMeans(e.dayOfMonth, 1, 31, DateOf(day).day);
    ReadBackMeans(e.month, 1, 12, DateOf(day).month);
    ReadBackMeans(e.dayOfWeek, 0, 6, Weekday(day));
  }

  lemma ParsedHasFields(text: string)
    requires Parse(text).Ok?
    ensures var words := Words(text);
      && |words| == 5
      && Field.ParseField(words[0], 0, 59).Ok? && Field.ParseField(words[1], 0, 23).Ok?
      && Field.ParseField(words[2], 1, 31).Ok? && Field.ParseField(words[3], 1, 12).Ok?
      && Field.ParseField(words[4], 0, 6).Ok?
  {
  }

  lemma ReadWithin(field: string, min: nat, max: nat) returns (items: seq<Field.Item>)
    requires min <= max < 100 && Field.ParseField(field, min, max).Ok?
    ensures IsFieldWithin(items, min, max) && Field.RenderField(items) == field
  {
    items := Field.ReadField(field, min, max);
  }

  lemma FieldsAre(e: Expression, words: seq<string>)
    requires |words| == 5 && Field.RenderField(e.minute) == words[0] && Field.RenderField(e.hour) == words[1]
    requires Field.RenderField(e.dayOfMonth) == words[2] && Field.RenderField(e.month) == words[3]
    requires Field.RenderField(e.dayOfWeek) == words[4]
    ensures Fields(e) == words
  {
  }

  /** Every text that parses is the text of an expression, so the law above is about every
      accepted text. */
  lemma ParsedIsMeant(text: string) returns (e: Expression)
    requires Parse(text).Ok?
    ensures IsExpression(e) && Words(text) == Fields(e)
  {
    var words := Words(text);
    ParsedHasFields(text);
    var minute := ReadWithin(words[0], 0, 59);
    var hour := ReadWithin(words[1], 0, 23);
    var dayOfMonth := ReadWithin(words[2], 1, 31);
    var month := ReadWithin(words[3], 1, 12);
    var dayOfWeek := ReadWithin(words[4], 0, 6);
    e := Expression(minute, hour, dayOfMonth, month, dayOfWeek);
    FieldsAre(e, words);
  }

  // ------------------------------------------------------------------ the leap day's text

  function Alone(text: string): seq<Field.Item> { [Field.Item(Field.One(text), None)] }

  lemma AloneIs(text: string, n: nat, min: nat, max: nat)
    requires Field.ParseU32(text) == Some(n) && min <= n <= max < 100
    ensures IsFieldWithin(Alone(text), min, max) && Field.RenderField(Alone(text)) == text
    ensures forall v: nat :: Field.Denotes(Alone(text), min, max, v) <==> v == n
  {
    var items := Alone(text);
    assert Field.RenderItems(items[1..]) == [];
    assert Field.SpanOf(items[0], min, max) == Field.Span(n, n, 1);
    forall v: nat ensures Field.Denotes(items, min, max, v) <==> v == n {
      assert Field.Yields(Field.SpanOf(items[0], min, max), v) <==> v == n;
    }
  }

  lemma AnyIs()
    ensures IsFieldWithin(ANY, 0, 6) && Field.RenderField(ANY) == "*"
  {
    assert Field.RenderItems(ANY[1..]) == [];
  }

  lemma SmallNumerals()
    ensures Field.ParseU32("0") == Some(0) && Field.ParseU32("2") == Some(2) && Field.ParseU32("29") == Some(29)
  {
    assert "0"[..0] == "" && "2"[..0] == "" && "29"[..1] == "2";
  }

  const LEAP_DAY := "0 0 29 2 *"

  lemma LeapDayWords()
    ensures Words(LEAP_DAY) == ["0", "0", "29", "2", "*"]
  {
    var words := ["0", "0", "29", "2", "*"];
    assert words[1..] == ["0", "29", "2", "*"] && words[1..][1..] == ["29", "2", "*"];
    assert words[1..][1..][1..] == ["2", "*"] && words[1..][1..][1..][1..] == ["*"];
    assert Join(["2", "*"], ' ') == "2 *";
    assert Join(["29", "2", "*"], ' ') == "29 2 *";
    assert Join(["0", "29", "2", "*"], ' ') == "0 29 2 *";
    assert Join(words, ' ') == LEAP_DAY;
    WordsOfJoin(words);
  }

  /** The midnight of every twenty-ninth of February: the text parses, the schedule fires
      again after every instant, yet from some instants the search finds no run. */
  lemma LeapDayScheduleStops()
    ensures Parse(LEAP_DAY).Ok?
    ensures var s := Parse(LEAP_DAY).schedule;
      && (exists from: nat :: NextAfter(s, from).None?)
      && (forall t: nat :: MatchesAfter(s, t))
  {
    var e := Expression(Alone("0"), Alone("0"), Alone("29"), Alone("2"), ANY);
    SmallNumerals();
    AloneIs("0", 0, 0, 59);
    AloneIs("0", 0, 0, 23);
    AloneIs("29", 29, 1, 31);
    AloneIs("2", 2, 1, 12);
    AnyIs();
    LeapDayWords();
    WrittenParses(LEAP_DAY, e);
    LeapDayFields(e);
    ParsedIsSchedule(LEAP_DAY);
    var s := Parse(LEAP_DAY).schedule;
    GivesUpExactlyWhen(s);
    forall t: nat ensures MatchesAfter(s, t) {
      LeapDayComes(s, t);
    }
  }

  lemma LeapDayFields(e: Expression)
    requires IsExpression(e) && e.dayOfMonth == Alone("29") && e.month == Alone("2") && e.dayOfWeek == ANY
    requires forall v: nat :: Field.Denotes(e.dayOfMonth, 1, 31, v) <==> v == 29
    requires forall v: nat :: Field.Denotes(e.month, 1, 12, v) <==> v == 2
    ensures forall v: nat :: v in ReadBack(e.dayOfMonth, 1, 31).0 <==> v == 29
    ensures forall v: nat :: v in ReadBack(e.month, 1, 12).0 <==> v == 2
    ensures !ReadBack(e.dayOfWeek, 0, 6).1
  {
    forall v: nat
      ensures v in ReadBack(e.dayOfMonth, 1, 31).0 <==> v == 29
      ensures v in ReadBack(e.month, 1, 12).0 <==> v == 2
    {
      ReadBackMeans(e.dayOfMonth, 1, 31, v);
      ReadBackMeans(e.month, 1, 12, v);
    }
    ReadBackMeans(e.dayOfWeek, 0, 6, 0);
  }
}
