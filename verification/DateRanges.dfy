/** The chat assistant's date-range resolver: presets, explicit dates, and the preceding window. */
module DateRanges {
  import opened Wrappers
  import opened Calendar
  import opened IstBackend

  /** Both ends are inclusive instants. */
  datatype ResolvedRange = ResolvedRange(dateFrom: int, dateTo: int)

  datatype Preset =
    | AllTime | Today | Yesterday | Last24Hours
    | ThisWeek | WeekToDate | LastWeek
    | ThisMonth | MonthToDate | LastMonth
    | ThisYear | YearToDate | LastYear
    | Last7Days | Last30Days | Last90Days

  /** 2000-01-01T00:00Z. */
  const EARLIEST := 10957 * DAY

  // A date is kept as its day number; `replace` goes through the civil form.

  /** A date the standard library can hold; outside it every operation raises. */
  function CheckDate(n: int): Option<int> {
    if MIN_DAY <= n <= MAX_DAY then Some(n) else None
  }

  function MidnightUtc(n: int): Option<int> {
    Clip(n * DAY - IST_OFFSET)
  }

  function EndOfDayUtc(n: int): Option<int> {
    var start :- MidnightUtc(n);
    var next :- Clip(start + DAY);
    Clip(next - 1)
  }

  function DayRange(first: int, last: int): Option<ResolvedRange> {
    var start :- MidnightUtc(first);
    var end :- EndOfDayUtc(last);
    Some(ResolvedRange(start, end))
  }

  function FirstOfMonth(n: int): int {
    DayNumber(CivilOf(n).(day := 1))
  }

  function LastDayOfMonth(n: int): Option<int> {
    var c := CivilOf(n);
    if c.month == 12 then Some(DayNumber(c.(day := 31)))
    else CheckDate(DayNumber(Civil(c.year, c.month + 1, 1)) - 1)
  }

  function SinceStart(today: int): Option<ResolvedRange> {
    var end :- EndOfDayUtc(today);
    Some(ResolvedRange(EARLIEST, end))
  }

  function LastDays(today: int, n: nat): Option<ResolvedRange> {
    var start :- CheckDate(today - (n - 1));
    DayRange(start, today)
  }

  function DayBefore(today: int): Option<ResolvedRange> {
    var y :- CheckDate(today - 1);
    DayRange(y, y)
  }

  function Last24(now: int): Option<ResolvedRange> {
    var start :- Clip(now - DAY);
    Some(ResolvedRange(start, now))
  }

  function Week(today: int, weeksBack: nat): Option<ResolvedRange> {
    var start :- CheckDate(today - (MondayBased(today) + 7 * weeksBack));
    var end :- CheckDate(start + 6);
    DayRange(start, end)
  }

  function WeekSoFar(today: int): Option<ResolvedRange> {
    var start :- CheckDate(today - MondayBased(today));
    DayRange(start, today)
  }

  function WholeMonth(today: int): Option<ResolvedRange> {
    var end :- LastDayOfMonth(today);
    DayRange(FirstOfMonth(today), end)
  }

  function MonthBefore(today: int): Option<ResolvedRange> {
    var lastPrev :- CheckDate(FirstOfMonth(today) - 1);
    DayRange(FirstOfMonth(lastPrev), lastPrev)
  }

  function WholeYear(y: int): Option<ResolvedRange> {
    var start :- CheckDate(DayNumber(Civil(y, 1, 1)));
    var end :- CheckDate(DayNumber(Civil(y, 12, 31)));
    DayRange(start, end)
  }

  function YearSoFar(today: int): Option<ResolvedRange> {
    DayRange(DayNumber(Civil(CivilOf(today).year, 1, 1)), today)
  }

  function ResolvePreset(p: Preset, now: int): Option<ResolvedRange> {
    var istNow :- ToIst(now);
    ResolveOn(p, istNow / DAY, now)
  }

  function ResolveOn(p: Preset, today: int, now: int): Option<ResolvedRange> {
    match p
    case AllTime => SinceStart(today)
    case Today => DayRange(today, today)
    case Yesterday => DayBefore(today)
    case Last24Hours => Last24(now)
    case ThisWeek => Week(today, 0)
    case WeekToDate => WeekSoFar(today)
    case LastWeek => Week(today, 1)
    case ThisMonth => WholeMonth(today)
    case MonthToDate => DayRange(FirstOfMonth(today), today)
    case LastMonth => MonthBefore(today)
    case ThisYear => WholeYear(CivilOf(today).year)
    case YearToDate => YearSoFar(today)
    case LastYear => WholeYear(CivilOf(today).year - 1)
    case Last7Days => LastDays(today, 7)
    case Last30Days => LastDays(today, 30)
    case Last90Days => LastDays(today, 90)
  }

  // ---- what each preset covers, told without computing any bound ----

  function MonthIndex(c: Civil): int {
    12 * c.year + c.month
  }

  predicate InPreset(p: Preset, now: int, t: int) {
    match p
    case AllTime => EARLIEST <= t && IstDay(t) <= IstDay(now)
    case Last24Hours => now - DAY <= t <= now
    case _ => DayInPreset(p, IstDay(now), IstDay(t))
  }

  predicate DayInPreset(p: Preset, today: int, day: int) {
    var d, c := CivilOf(today), CivilOf(day);
    match p
    case Today => day == today
    case Yesterday => day == today - 1
    case ThisWeek => WeekOf(day) == WeekOf(today)
    case WeekToDate => WeekOf(day) == WeekOf(today) && day <= today
    case LastWeek => WeekOf(day) == WeekOf(today) - 1
    case ThisMonth => MonthIndex(c) == MonthIndex(d)
    case MonthToDate => MonthIndex(c) == MonthIndex(d) && day <= today
    case LastMonth => MonthIndex(c) == MonthIndex(d) - 1
    case ThisYear => c.year == d.year
    case YearToDate => c.year == d.year && day <= today
    case LastYear => c.year == d.year - 1
    case Last7Days => today - 7 < day <= today
    case Last30Days => today - 30 < day <= today
    case Last90Days => today - 90 < day <= today
    case AllTime => true
    case Last24Hours => true
  }

  /** The inclusive range of whole IST days from day a to day b. */
  function Days(a: int, b: int): ResolvedRange {
    ResolvedRange(IstMidnight(a), IstMidnight(b + 1) - 1)
  }

  predicate Within(t: int, r: ResolvedRange) {
    r.dateFrom <= t <= r.dateTo
  }

  lemma WithinDays(t: int, a: int, b: int)
    ensures Within(t, Days(a, b)) <==> a <= IstDay(t) <= b
  {
  }

  lemma DayRangeDays(first: int, last: int)
    requires DayRange(first, last).Some?
    ensures DayRange(first, last) == Some(Days(first, last))
  {
  }

  // The first and the last day of each preset made of whole days.

  function LastOfMonth(c: Civil): int
    requires 1 <= c.month <= 12
  {
    DayNumber(Civil(c.year, c.month, DaysInMonth(c.year, c.month)))
  }

  lemma LastDayExact(n: int)
    requires LastDayOfMonth(n).Some?
    ensures LastDayOfMonth(n) == Some(LastOfMonth(CivilOf(n)))
  {
    var c := CivilOf(n);
    if c.month < 12 { MonthEnds(c.year, c.month); }
  }

  /** The days of a month are the dates that carry its year and month. */
  lemma MonthDays(y: int, m: int, n: int)
    requires 1 <= m <= 12
    ensures DayNumber(Civil(y, m, 1)) <= n <= LastOfMonth(Civil(y, m, 1))
            <==> CivilOf(n).year == y && CivilOf(n).month == m
  {
    SameOrder(CivilOf(n), Civil(y, m, 1));
    SameOrder(CivilOf(n), Civil(y, m, DaysInMonth(y, m)));
  }

  lemma YearDays(y: int, n: int)
    ensures YearStart(y) <= n < YearStart(y + 1) <==> CivilOf(n).year == y
  {
    DayInItsYear(CivilOf(n));
    if YearStart(y) <= n < YearStart(y + 1) {
      YearUnique(n, y);
      YearUnique(n, CivilOf(n).year);
    }
  }

  function LastOfPreviousMonth(c: Date): Date {
    if c.month == 1 then Civil(c.year - 1, 12, 31)
    else Civil(c.year, c.month - 1, DaysInMonth(c.year, c.month - 1))
  }

  /** One day before the first of a month is the last day of the month before it. */
  lemma DayBeforeFirst(n: int)
    ensures CivilOf(FirstOfMonth(n) - 1) == LastOfPreviousMonth(CivilOf(n))
  {
    hide YearStart, IsLeap;
    var c := CivilOf(n);
    if c.month == 1 { YearEnds(c.year - 1); } else { MonthEnds(c.year, c.month - 1); }
    CivilUnique(FirstOfMonth(n) - 1, LastOfPreviousMonth(c));
  }

  predicate WholeDays(p: Preset) {
    !p.AllTime? && !p.Last24Hours?
  }

  function FirstDay(p: Preset, today: int): int {
    match p
    case ThisWeek => today - MondayBased(today)
    case WeekToDate => today - MondayBased(today)
    case LastWeek => today - MondayBased(today) - 7
    case ThisMonth => FirstOfMonth(today)
    case MonthToDate => FirstOfMonth(today)
    case LastMonth => FirstOfMonth(FirstOfMonth(today) - 1)
    case ThisYear => YearStart(CivilOf(today).year)
    case YearToDate => YearStart(CivilOf(today).year)
    case LastYear => YearStart(CivilOf(today).year - 1)
    case Yesterday => today - 1
    case Last7Days => today - 6
    case Last30Days => today - 29
    case Last90Days => today - 89
    case _ => today
  }

  function LastDay(p: Preset, today: int): int {
    match p
    case ThisWeek => today - MondayBased(today) + 6
    case LastWeek => today - MondayBased(today) - 1
    case ThisMonth => LastOfMonth(CivilOf(today))
    case LastMonth => FirstOfMonth(today) - 1
    case ThisYear => YearStart(CivilOf(today).year + 1) - 1
    case LastYear => YearStart(CivilOf(today).year) - 1
    case Yesterday => today - 1
    case _ => today
  }

  predicate YearPreset(p: Preset) {
    p.ThisYear? || p.YearToDate? || p.LastYear?
  }

  lemma YearResolves(p: Preset, today: int, now: int)
    requires YearPreset(p) && ResolveOn(p, today, now).Some?
    ensures ResolveOn(p, today, now) == Some(Days(FirstDay(p, today), LastDay(p, today)))
  {
    hide CivilOf, YearStart, FirstOfMonth, LastOfMonth;
    var y := CivilOf(today).year - if p.LastYear? then 1 else 0;
    YearEnds(y);
    DayRangeDays(FirstDay(p, today), LastDay(p, today));
  }

  lemma MonthResolves(today: int)
    ensures WholeMonth(today).Some? ==>
              WholeMonth(today) == Some(Days(FirstOfMonth(today), LastOfMonth(CivilOf(today))))
    ensures MonthBefore(today).Some? ==>
              MonthBefore(today) == Some(Days(FirstOfMonth(FirstOfMonth(today) - 1), FirstOfMonth(today) - 1))
  {
    hide CivilOf, YearStart, IsLeap, LastOfMonth, FirstOfMonth;
    if LastDayOfMonth(today).Some? { LastDayExact(today); }
  }

  lemma ResolvesToDays(p: Preset, today: int, now: int)
    requires WholeDays(p) && ResolveOn(p, today, now).Some?
    ensures ResolveOn(p, today, now) == Some(Days(FirstDay(p, today), LastDay(p, today)))
  {
    hide YearStart, IsLeap, CivilOf, FirstOfMonth, LastOfMonth, WholeMonth, MonthBefore, WholeYear;
    if YearPreset(p) {
      YearResolves(p, today, now);
    } else if p.ThisMonth? || p.LastMonth? {
      MonthResolves(today);
    } else {
      DaysResolve(p, today, now);
    }
  }

  lemma DaysResolve(p: Preset, today: int, now: int)
    requires WholeDays(p) && !YearPreset(p) && !p.ThisMonth? && !p.LastMonth? && ResolveOn(p, today, now).Some?
    ensures ResolveOn(p, today, now) == Some(Days(FirstDay(p, today), LastDay(p, today)))
  {
    hide CivilOf, YearStart, FirstOfMonth, DayRange, Days;
    DayRangeFrom(FirstDay(p, today), LastDay(p, today));
  }

  lemma DayRangeFrom(first: int, last: int)
    ensures DayRange(first, last).Some? ==> DayRange(first, last) == Some(Days(first, last))
  {
    if DayRange(first, last).Some? { DayRangeDays(first, last); }
  }

  lemma WeekPresetDays(p: Preset, today: int, day: int)
    requires p.ThisWeek? || p.WeekToDate? || p.LastWeek?
    ensures FirstDay(p, today) <= day <= LastDay(p, today) <==> DayInPreset(p, today, day)
  {
    WeekDays(today, if p.LastWeek? then 1 else 0, day);
    WeekDays(today, 0, today);
  }

  lemma LastMonthDays(today: int, day: int)
    ensures FirstOfMonth(FirstOfMonth(today) - 1) <= day <= FirstOfMonth(today) - 1
            <==> MonthIndex(CivilOf(day)) == MonthIndex(CivilOf(today)) - 1
  {
    hide YearStart, IsLeap;
    DayBeforeFirst(today);
    var last := LastOfPreviousMonth(CivilOf(today));
    MonthDays(last.year, last.month, day);
  }

  lemma ThisMonthDays(today: int, day: int)
    ensures FirstOfMonth(today) <= day <= LastOfMonth(CivilOf(today))
            <==> MonthIndex(CivilOf(day)) == MonthIndex(CivilOf(today))
    ensures FirstOfMonth(today) <= today <= LastOfMonth(CivilOf(today))
  {
    var d := CivilOf(today);
    MonthDays(d.year, d.month, day);
    MonthDays(d.year, d.month, today);
  }

  lemma YearPresetDays(p: Preset, today: int, day: int)
    requires YearPreset(p)
    ensures FirstDay(p, today) <= day <= LastDay(p, today) <==> DayInPreset(p, today, day)
  {
    hide CivilOf, YearStart, FirstOfMonth, LastOfMonth;
    YearDays(CivilOf(today).year - if p.LastYear? then 1 else 0, day);
    YearDays(CivilOf(today).year, today);
  }

  lemma PresetDays(p: Preset, today: int, day: int)
    requires WholeDays(p)
    ensures FirstDay(p, today) <= day <= LastDay(p, today) <==> DayInPreset(p, today, day)
  {
    hide CivilOf, YearStart, FirstOfMonth, LastOfMonth;
    match p {
      case ThisWeek => WeekPresetDays(p, today, day);
      case WeekToDate => WeekPresetDays(p, today, day);
      case LastWeek => WeekPresetDays(p, today, day);
      case ThisMonth => ThisMonthDays(today, day);
      case MonthToDate => ThisMonthDays(today, day);
      case LastMonth => LastMonthDays(today, day);
      case ThisYear => YearPresetDays(p, today, day);
      case YearToDate => YearPresetDays(p, today, day);
      case LastYear => YearPresetDays(p, today, day);
      case _ =>
    }
  }

  /** Every preset, for every "now", covers exactly the instants its name says. */
  lemma PresetCovers(p: Preset, now: int, t: int)
    requires ResolvePreset(p, now).Some?
    ensures Within(t, ResolvePreset(p, now).value) <==> InPreset(p, now, t)
  {
    if WholeDays(p) {
      DayPresetCovers(p, now, t);
    }
  }

  lemma DayPresetCovers(p: Preset, now: int, t: int)
    requires WholeDays(p) && ResolvePreset(p, now).Some?
    ensures Within(t, ResolvePreset(p, now).value) <==> DayInPreset(p, IstDay(now), IstDay(t))
  {
    hide ResolvePreset, Within, Days, FirstDay, LastDay, DayInPreset;
    var today := IstDay(now);
    ResolvedDays(p, now);
    PresetDays(p, today, IstDay(t));
    WithinDays(t, FirstDay(p, today), LastDay(p, today));
  }

  lemma PresetNonEmpty(p: Preset, today: int)
    requires WholeDays(p)
    ensures FirstDay(p, today) <= LastDay(p, today)
    ensures p.ThisMonth? || p.LastMonth? || p.ThisYear? || p.LastYear? || p.ThisWeek? || LastDay(p, today) <= today
  {
    hide YearStart, IsLeap, CivilOf, FirstOfMonth, LastOfMonth;
    YearDays(CivilOf(today).year, today);
    YearStep(CivilOf(today).year - 1);
    ThisMonthDays(today, today);
    FirstOfMonthBound(FirstOfMonth(today) - 1);
  }

  lemma FirstOfMonthBound(n: int)
    ensures FirstOfMonth(n) <= n
  {
  }

  lemma DayRangeWhen(first: int, last: int)
    requires first <= last
    ensures DayRange(first, last).Some? <==> MIN_DAY < first && last <= MAX_DAY
  {
  }

  lemma ThisMonthResolvesWhen(today: int)
    requires MIN_DAY <= today <= MAX_DAY
    ensures WholeMonth(today).Some? <==> MIN_DAY < FirstOfMonth(today) && LastOfMonth(CivilOf(today)) <= MAX_DAY
  {
    hide YearStart, IsLeap, CivilOf, FirstOfMonth, DayRange;
    var c := CivilOf(today);
    ThisMonthDays(today, today);
    DayRangeWhen(FirstOfMonth(today), LastOfMonth(c));
    if c.month < 12 { MonthEnds(c.year, c.month); }
  }

  lemma LastMonthResolvesWhen(today: int)
    requires MIN_DAY <= today <= MAX_DAY
    ensures MonthBefore(today).Some? <==> MIN_DAY < FirstOfMonth(FirstOfMonth(today) - 1)
  {
    hide YearStart, IsLeap, CivilOf, FirstOfMonth, DayRange;
    var last := FirstOfMonth(today) - 1;
    FirstOfMonthBound(today);
    FirstOfMonthBound(last);
    DayRangeWhen(FirstOfMonth(last), last);
  }

  lemma YearResolvesWhen(y: int)
    ensures WholeYear(y).Some? <==> MIN_DAY < YearStart(y) && YearStart(y + 1) - 1 <= MAX_DAY
  {
    hide YearStart, IsLeap;
    YearEnds(y);
    YearStep(y);
    DayRangeWhen(YearStart(y), YearStart(y + 1) - 1);
  }

  predicate MonthPreset(p: Preset) {
    p.ThisMonth? || p.LastMonth? || p.MonthToDate?
  }

  lemma YearPresetsResolve(p: Preset, now: int)
    requires YearPreset(p) && ToIst(now).Some?
    ensures ResolvePreset(p, now).Some? <==> MIN_DAY < FirstDay(p, IstDay(now)) && LastDay(p, IstDay(now)) <= MAX_DAY
  {
    hide YearStart, IsLeap, CivilOf, WholeYear, DayRange;
    var today := IstDay(now);
    PresetNonEmpty(p, today);
    DayRangeWhen(FirstDay(p, today), LastDay(p, today));
    YearResolvesWhen(CivilOf(today).year);
    YearResolvesWhen(CivilOf(today).year - 1);
    YearEnds(CivilOf(today).year);
  }

  lemma MonthPresetsResolve(p: Preset, now: int)
    requires MonthPreset(p) && ToIst(now).Some?
    ensures ResolvePreset(p, now).Some? <==> MIN_DAY < FirstDay(p, IstDay(now)) && LastDay(p, IstDay(now)) <= MAX_DAY
  {
    hide YearStart, IsLeap, CivilOf, FirstOfMonth, LastOfMonth, WholeMonth, MonthBefore, DayRange;
    var today := IstDay(now);
    FirstOfMonthBound(today);
    DayRangeWhen(FirstOfMonth(today), today);
    ThisMonthResolvesWhen(today);
    LastMonthResolvesWhen(today);
  }

  lemma DayPresetsResolve(p: Preset, now: int)
    requires WholeDays(p) && !YearPreset(p) && !MonthPreset(p) && ToIst(now).Some?
    ensures ResolvePreset(p, now).Some? <==> MIN_DAY < FirstDay(p, IstDay(now)) && LastDay(p, IstDay(now)) <= MAX_DAY
  {
    hide YearStart, IsLeap, CivilOf, DayRange;
    var today := IstDay(now);
    PresetNonEmpty(p, today);
    DayRangeWhen(FirstDay(p, today), LastDay(p, today));
  }

  /** A preset resolves exactly when the shifted "now" is a datetime and, for whole days, its first
      and last day are dates whose IST bounds exist; `all_time` needs the end of today, and
      `last_24_hours` the moment a day ago. */
  lemma PresetsResolve(p: Preset, now: int)
    ensures var today := IstDay(now);
            ResolvePreset(p, now).Some? <==>
              && ToIst(now).Some?
              && if p.AllTime? then MIN_DAY < today
                 else if p.Last24Hours? then MIN_INSTANT <= now - DAY <= MAX_INSTANT
                 else MIN_DAY < FirstDay(p, today) && LastDay(p, today) <= MAX_DAY
  {
    hide CivilOf, FirstDay, LastDay;
    if WholeDays(p) && ToIst(now).Some? {
      if YearPreset(p) {
        YearPresetsResolve(p, now);
      } else if MonthPreset(p) {
        MonthPresetsResolve(p, now);
      } else {
        DayPresetsResolve(p, now);
      }
    }
  }

  // ---- how the presets fit together ----

  function PresetBefore(p: Preset): Preset
    requires p.Today? || p.ThisWeek? || p.ThisMonth? || p.ThisYear?
  {
    match p case Today => Yesterday case ThisWeek => LastWeek case ThisMonth => LastMonth case ThisYear => LastYear
  }

  /** `yesterday`, `last_week`, `last_month` and `last_year` end exactly one microsecond before
      `today`, `this_week`, `this_month` and `this_year` start, and the latter contain "now". */
  lemma PresetsAbut(p: Preset, now: int)
    requires p.Today? || p.ThisWeek? || p.ThisMonth? || p.ThisYear?
    requires ResolvePreset(p, now).Some? && ResolvePreset(PresetBefore(p), now).Some?
    ensures ResolvePreset(PresetBefore(p), now).value.dateTo + 1 == ResolvePreset(p, now).value.dateFrom
    ensures Within(now, ResolvePreset(p, now).value)
  {
    var today := IstDay(now);
    ResolvesToDays(p, today, now);
    ResolvesToDays(PresetBefore(p), today, now);
    PresetCovers(p, now, now);
  }

  /** A range is never reversed, except `all_time` asked before its fixed start in 2000. */
  lemma PresetOrdered(p: Preset, now: int)
    requires ResolvePreset(p, now).Some?
    ensures var r := ResolvePreset(p, now).value;
            r.dateFrom <= r.dateTo <==> !p.AllTime? || IstDay(now) >= 10957
  {
    if WholeDays(p) {
      var today := IstDay(now);
      ResolvesToDays(p, today, now);
      PresetDays(p, today, FirstDay(p, today));
      WithinDays(IstMidnight(FirstDay(p, today)), FirstDay(p, today), LastDay(p, today));
      PresetNonEmpty(p, today);
    }
  }

  // ---- the preceding window ----

  /** The window of equal length right before r. */
  function PreviousPeriod(r: ResolvedRange): Option<ResolvedRange> {
    var span := r.dateTo - r.dateFrom + 1;
    var start :- Clip(r.dateFrom - span);
    var end :- Clip(r.dateFrom - 1);
    Some(ResolvedRange(start, end))
  }

  function PreviousPeriods(r: ResolvedRange, k: nat): Option<ResolvedRange> {
    if k == 0 then Some(r) else
      var later :- PreviousPeriods(r, k - 1);
      PreviousPeriod(later)
  }

  /** `_previous_range` of the analytics service, which does not restore the microsecond. */
  function AnalyticsPrevious(r: ResolvedRange): Option<ResolvedRange> {
    var start :- Clip(r.dateFrom - (r.dateTo - r.dateFrom));
    Some(ResolvedRange(start, r.dateFrom))
  }

  function AnalyticsPreviousPeriods(r: ResolvedRange, k: nat): Option<ResolvedRange> {
    if k == 0 then Some(r) else
      var later :- AnalyticsPreviousPeriods(r, k - 1);
      AnalyticsPrevious(later)
  }

  lemma {:induction false} PreviousBounds(r: ResolvedRange, k: nat)
    requires PreviousPeriods(r, k).Some?
    ensures var span := r.dateTo - r.dateFrom + 1;
            PreviousPeriods(r, k) == Some(ResolvedRange(r.dateFrom - k * span, r.dateTo - k * span))
  {
    if k > 0 { PreviousBounds(r, k - 1); }
  }

  lemma WindowIndex(back: int, span: int, k: int)
    requires span > 0
    ensures (k - 1) * span <= back < k * span <==> back / span == k - 1
  {
    var q := back / span;
    assert q * span <= back < (q + 1) * span;
    Ordered(q + 1, k - 1, span);
    Ordered(k, q, span);
  }

  lemma Ordered(a: int, b: int, span: int)
    requires span > 0
    ensures a <= b ==> a * span <= b * span
  {
  }

  /** The k preceding windows have the length of the range and tile the time before it: an
      instant is in window k exactly when it lies k whole spans back, rounded up. */
  lemma PreviousPeriodsTile(r: ResolvedRange, k: nat, t: int)
    requires r.dateFrom <= r.dateTo && k > 0 && PreviousPeriods(r, k).Some?
    ensures var p := PreviousPeriods(r, k).value;
            var span := r.dateTo - r.dateFrom + 1;
            && p.dateTo - p.dateFrom + 1 == span
            && (Within(t, p) <==> (r.dateFrom - 1 - t) / span == k - 1)
            && PreviousPeriods(r, k - 1).value.dateFrom == p.dateTo + 1
  {
    var span := r.dateTo - r.dateFrom + 1;
    PreviousBounds(r, k);
    PreviousBounds(r, k - 1);
    assert k * span == (k - 1) * span + span;
    WindowIndex(r.dateFrom - 1 - t, span, k);
  }

  lemma {:induction false} AnalyticsBounds(r: ResolvedRange, k: nat)
    requires k > 0 && AnalyticsPreviousPeriods(r, k).Some?
    ensures var span := r.dateTo - r.dateFrom;
            AnalyticsPreviousPeriods(r, k) == Some(ResolvedRange(r.dateFrom - k * span, r.dateFrom - (k - 1) * span))
  {
    var span := r.dateTo - r.dateFrom;
    if k > 1 {
      AnalyticsBounds(r, k - 1);
      assert k * span == (k - 1) * span + span;
    } else {
      assert AnalyticsPreviousPeriods(r, 0) == Some(r);
    }
  }

  /** The analytics service's own preceding window is not the one above: it overlaps the range it
      precedes in exactly one instant, and k windows back it has drifted k microseconds. */
  lemma AnalyticsWindowDrifts(r: ResolvedRange, k: nat, t: int)
    requires r.dateFrom <= r.dateTo && k > 0
    requires PreviousPeriods(r, k).Some? && AnalyticsPreviousPeriods(r, k).Some?
            && AnalyticsPreviousPeriods(r, k - 1).Some?
    ensures AnalyticsPreviousPeriods(r, k).value.dateFrom == PreviousPeriods(r, k).value.dateFrom + k
    ensures var later := AnalyticsPreviousPeriods(r, k - 1).value;
            Within(t, AnalyticsPreviousPeriods(r, k).value) && Within(t, later) <==> t == later.dateFrom
  {
    var s := r.dateTo - r.dateFrom;
    PreviousBounds(r, k);
    AnalyticsBounds(r, k);
    assert k * (s + 1) == k * s + k;
    assert k * s == (k - 1) * s + s;
    if k > 1 {
      AnalyticsBounds(r, k - 1);
      assert (k - 1) * s == (k - 2) * s + s;
    }
  }

  /** When does this preset have the length of the one before it? */
  predicate SameLength(p: Preset, today: int)
    requires p.Today? || p.ThisWeek? || p.ThisMonth? || p.ThisYear?
  {
    var c := CivilOf(today);
    match p
    case Today => true
    case ThisWeek => true
    case ThisMonth => c.month == 1 || c.month == 8
    case ThisYear => !IsLeap(c.year) && !IsLeap(c.year - 1)
  }

  lemma PresetLengths(p: Preset, today: int)
    requires p.Today? || p.ThisWeek? || p.ThisMonth? || p.ThisYear?
    ensures LastDay(PresetBefore(p), today) == FirstDay(p, today) - 1
    ensures LastDay(p, today) - FirstDay(p, today) == LastDay(PresetBefore(p), today) - FirstDay(PresetBefore(p), today)
            <==> SameLength(p, today)
  {
    hide CivilOf, YearStart;
    var c := CivilOf(today);
    match p {
      case ThisMonth => MonthLengths(today);
      case ThisYear =>
        YearStep(c.year);
        YearStep(c.year - 1);
      case _ =>
    }
  }

  lemma MonthLengths(today: int)
    ensures var c := CivilOf(today);
            && LastOfMonth(c) - FirstOfMonth(today) + 1 == DaysInMonth(c.year, c.month)
            && FirstOfMonth(today) - FirstOfMonth(FirstOfMonth(today) - 1)
               == DaysInMonth(LastOfPreviousMonth(c).year, LastOfPreviousMonth(c).month)
  {
    hide CivilOf, YearStart, IsLeap;
    DayBeforeFirst(today);
  }

  lemma ResolvedDays(p: Preset, now: int)
    requires WholeDays(p) && ResolvePreset(p, now).Some?
    ensures ResolvePreset(p, now) == Some(Days(FirstDay(p, IstDay(now)), LastDay(p, IstDay(now))))
  {
    hide ResolveOn, FirstDay, LastDay, Days, CivilOf;
    ResolvesToDays(p, IstDay(now), now);
  }

  /** The preceding window of `today` is `yesterday` and that of `this_week` is `last_week`, for
      every "now"; that of `this_month` is `last_month` only in January and August, and that of
      `this_year` is `last_year` only when neither year is a leap year. */
  lemma PreviousOfPreset(p: Preset, now: int)
    requires p.Today? || p.ThisWeek? || p.ThisMonth? || p.ThisYear?
    requires ResolvePreset(p, now).Some? && ResolvePreset(PresetBefore(p), now).Some?
    requires PreviousPeriod(ResolvePreset(p, now).value).Some?
    ensures PreviousPeriod(ResolvePreset(p, now).value) == ResolvePreset(PresetBefore(p), now)
            <==> SameLength(p, IstDay(now))
  {
    hide CivilOf, YearStart, FirstDay, LastDay, SameLength, ResolvePreset;
    var today := IstDay(now);
    ResolvedDays(p, now);
    ResolvedDays(PresetBefore(p), now);
    PresetLengths(p, today);
  }
}
