/** IST calendar days in the browser. Instants are milliseconds since 1970-01-01T00:00Z, and an
    absent value is an invalid Date (section 21.4.1 of ECMA-262). */
module IstFrontend {
  import opened Wrappers
  import opened Calendar

  const IST_OFFSET := 19_800_000
  const DAY := 86_400_000
  const MAX_TIME := 8_640_000_000_000_000

  /** Five and a half hours, and a day. */
  lemma UnitsAre()
    ensures IST_OFFSET == (5 * 60 + 30) * 60 * 1000 && DAY == 24 * 60 * 60 * 1000
  {
  }

  predicate ValidTime(t: int) {
    -MAX_TIME <= t <= MAX_TIME
  }

  function TimeClip(t: int): Option<int> {
    if ValidTime(t) then Some(t) else None
  }

  function UtcDate(t: int): Civil {
    CivilOf(t / DAY)
  }

  /** `Date.UTC(year, month - 1, day)`: a year from 0 to 99 means 1900 to 1999. */
  function DateUtc(year: int, month: int, day: int): Option<int>
    requires 1 <= month <= 12
  {
    var y := if 0 <= year <= 99 then 1900 + year else year;
    TimeClip((YearStart(y) + MonthStart(y, month) + day - 1) * DAY)
  }

  function IstDay(t: int): int {
    (t + IST_OFFSET) / DAY
  }

  function IstMidnight(n: int): int {
    n * DAY - IST_OFFSET
  }

  function IstStartOfDay(instant: int): Option<int> {
    var shifted :- TimeClip(instant + IST_OFFSET);
    var d := UtcDate(shifted);
    var utc :- DateUtc(d.year, d.month, d.day);
    TimeClip(utc - IST_OFFSET)
  }

  function IstEndOfDay(instant: int): Option<int> {
    var start :- IstStartOfDay(instant);
    TimeClip(start + DAY - 1)
  }

  function IstStartOfWeek(instant: int): Option<int> {
    var shifted :- TimeClip(instant + IST_OFFSET);
    var dayOfWeek := (shifted / DAY + 4) % 7;
    var daysSinceMonday := (dayOfWeek + 6) % 7;
    var start :- IstStartOfDay(instant);
    TimeClip(start - daysSinceMonday * DAY)
  }

  function IstStartOfMonth(instant: int): Option<int> {
    var shifted :- TimeClip(instant + IST_OFFSET);
    var d := UtcDate(shifted);
    var utc :- DateUtc(d.year, d.month, 1);
    TimeClip(utc - IST_OFFSET)
  }

  datatype DashboardPreset = Today | Yesterday | ThisWeek | Last7Days | Last30Days | ThisMonth

  datatype DashboardRange = DashboardRange(from: int, to: int)

  function Between(from: Option<int>, to: Option<int>): Option<DashboardRange> {
    var f :- from;
    var t :- to;
    Some(DashboardRange(f, t))
  }

  function StartOfDayBefore(now: int, days: nat): Option<int> {
    var earlier :- TimeClip(now - days * DAY);
    IstStartOfDay(earlier)
  }

  function ResolveDashboardPreset(preset: DashboardPreset, now: int): Option<DashboardRange> {
    match preset
    case Today => Between(IstStartOfDay(now), IstEndOfDay(now))
    case Yesterday =>
      var yesterday :- TimeClip(now - DAY);
      Between(IstStartOfDay(yesterday), IstEndOfDay(yesterday))
    case ThisWeek => Between(IstStartOfWeek(now), IstEndOfDay(now))
    case Last7Days => Between(StartOfDayBefore(now, 6), IstEndOfDay(now))
    case ThisMonth => Between(IstStartOfMonth(now), IstEndOfDay(now))
    case Last30Days => Between(StartOfDayBefore(now, 29), IstEndOfDay(now))
  }

  lemma NineteenCenturiesLater(d: Date)
    ensures YearStart(1900 + d.year) + MonthStart(1900 + d.year, d.month)
            > YearStart(d.year) + MonthStart(d.year, d.month)
  {
    YearsInOrder(d.year, 1900 + d.year);
    MonthsInOrder(1900 + d.year, 1, d.month);
    MonthsInOrder(d.year, d.month, 13);
    MonthStep(d.year, d.month);
  }

  /** `Date.UTC` rebuilds a date from its own parts unless the year is read as a short one, in
      which case the result lies 1900 years later. */
  lemma DateUtcExact(d: Date)
    ensures var t := DateUtc(d.year, d.month, d.day);
            if 0 <= d.year <= 99 then t.Some? ==> t.value > DayNumber(d) * DAY
            else t == TimeClip(DayNumber(d) * DAY)
  {
    NineteenCenturiesLater(d);
  }

  /** The browser's start of day is the floor-division IST midnight of its instant exactly when
      that midnight is a valid Date and the IST year is not one `Date.UTC` reads as 19xx. */
  lemma StartOfDayExact(t: int)
    requires ValidTime(t)
    ensures IstStartOfDay(t) == Some(IstMidnight(IstDay(t))) <==>
              && ValidTime(t + IST_OFFSET) && ValidTime(IstMidnight(IstDay(t)))
              && !(0 <= UtcDate(t + IST_OFFSET).year <= 99)
  {
    DateUtcExact(UtcDate(t + IST_OFFSET));
  }

  /** An instant where it is not: 1 January of year 50, 00:00 UTC. */
  lemma ShortYearsBreakStartOfDay(t: int)
    requires t == -60_589_296_000_000
    ensures ValidTime(t) && IstStartOfDay(t) != Some(IstMidnight(IstDay(t)))
  {
    var n := (t + IST_OFFSET) / DAY;
    assert YearStart(50) <= n < YearStart(51);
    YearUnique(n, 50);
    StartOfDayExact(t);
  }

  predicate Representable(t: int) {
    && ValidTime(t) && ValidTime(t + IST_OFFSET)
    && ValidTime(IstMidnight(IstDay(t))) && ValidTime(IstMidnight(IstDay(t) + 1) - 1)
    && !(0 <= UtcDate(t + IST_OFFSET).year <= 99)
  }

  function MonthStartDate(n: int): Date {
    CivilOf(n).(day := 1)
  }

  /** 00:00 IST on the first of the month of day n. */
  function MonthMidnight(n: int): Option<int> {
    var utc :- TimeClip(DayNumber(MonthStartDate(n)) * DAY);
    TimeClip(utc - IST_OFFSET)
  }

  /** The IST year of the instant is one that `Date.UTC` reads as 19xx. */
  predicate ShortYear(t: int) {
    0 <= UtcDate(t + IST_OFFSET).year <= 99
  }

  /** The day end is right exactly when the day start and the end are valid Dates and the year is no short one. */
  lemma DayEndExact(t: int)
    requires ValidTime(t)
    ensures IstEndOfDay(t) == Some(IstMidnight(IstDay(t) + 1) - 1) <==>
              && ValidTime(t + IST_OFFSET) && ValidTime(IstMidnight(IstDay(t)))
                  && ValidTime(IstMidnight(IstDay(t) + 1) - 1)
              && !ShortYear(t)
  {
    hide IstStartOfDay, UtcDate;
    StartOfDayExact(t);
    assert IstMidnight(IstDay(t) + 1) == IstMidnight(IstDay(t)) + DAY;
  }

  /** So is the week start: the IST midnight of the Monday on or before the instant. */
  lemma WeekStartExact(t: int)
    requires ValidTime(t)
    ensures var monday := IstDay(t) - MondayBased(IstDay(t));
            IstStartOfWeek(t) == Some(IstMidnight(monday)) <==>
              && ValidTime(t + IST_OFFSET) && ValidTime(IstMidnight(IstDay(t))) && ValidTime(IstMidnight(monday))
              && !ShortYear(t)
  {
    hide IstStartOfDay, UtcDate;
    StartOfDayExact(t);
    SameWeekday(IstDay(t));
    var k := MondayBased(IstDay(t));
    assert IstMidnight(IstDay(t)) - k * DAY == IstMidnight(IstDay(t) - k);
  }

  /** And the month start: the IST midnight of the first of the instant's month. */
  lemma MonthStartExact(t: int)
    requires ValidTime(t)
    ensures IstStartOfMonth(t) == Some(IstMidnight(DayNumber(MonthStartDate(IstDay(t))))) <==>
              ValidTime(t + IST_OFFSET) && MonthMidnight(IstDay(t)).Some? && !ShortYear(t)
  {
    hide CivilOf, YearStart, MonthStart, DayNumber, DateUtc;
    DateUtcExact(MonthStartDate(IstDay(t)));
  }

  /** What the day, week and month starts mean for an instant of the supported range. */
  lemma StartsExact(t: int)
    requires Representable(t)
    ensures IstMidnight(IstDay(t)) <= t < IstMidnight(IstDay(t) + 1)
    ensures IstStartOfDay(t) == Some(IstMidnight(IstDay(t)))
    ensures IstEndOfDay(t) == Some(IstMidnight(IstDay(t) + 1) - 1)
    ensures IstStartOfWeek(t) == TimeClip(IstMidnight(IstDay(t) - MondayBased(IstDay(t))))
    ensures IstStartOfMonth(t) == MonthMidnight(IstDay(t))
  {
    hide CivilOf;
    StartOfDayExact(t);
    DayEndExact(t);
    SameWeekday(IstDay(t));
    var k := MondayBased(IstDay(t));
    assert IstMidnight(IstDay(t)) - k * DAY == IstMidnight(IstDay(t) - k);
    DateUtcExact(MonthStartDate(IstDay(t)));
  }
}
