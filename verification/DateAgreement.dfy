/** The browser's milliseconds and the server's microseconds tell the same IST days. */
module DateAgreement {
  import opened Wrappers
  import opened Calendar
  import opened DateRanges
  import opened DateText
  import Browser = IstFrontend
  import Server = IstBackend

  /** `istDateKey`: the IST date of an instant, as the browser prints it. */
  function IstDateKey(t: int): string {
    if Browser.ValidTime(t + Browser.IST_OFFSET) then DateKey(Browser.UtcDate(t + Browser.IST_OFFSET))
    else "NaN-NaN-NaN"
  }

  lemma SameDays(t: int, n: int)
    ensures Server.IstDay(1000 * t) == Browser.IstDay(t)
    ensures Server.IstMidnight(n) == 1000 * Browser.IstMidnight(n)
  {
  }

  lemma RepresentableFrom100(t: int)
    requires YearStart(100) <= Browser.IstDay(t) <= Server.MAX_DAY
    ensures Browser.Representable(t)
  {
    hide CivilOf;
    var n := Browser.IstDay(t);
    DayInItsYear(CivilOf(n));
    if CivilOf(n).year < 100 { YearsInOrder(CivilOf(n).year + 1, 100); }
  }

  /** An IST day of the server's range, and whether the browser can be right about it. */
  lemma From100(t: int)
    requires Server.MIN_DAY < Browser.IstDay(t) <= Server.MAX_DAY
    ensures CivilOf(Browser.IstDay(t)).year >= 100 <==> YearStart(100) <= Browser.IstDay(t)
    ensures CivilOf(Browser.IstDay(t)).year >= 100 <==> !Browser.ShortYear(t)
    ensures Browser.ValidTime(t) && Browser.ValidTime(t + Browser.IST_OFFSET)
  {
    hide CivilOf;
    var c := CivilOf(Browser.IstDay(t));
    DayInItsYear(c);
    Server.SupportedDays(Browser.IstDay(t));
    if c.year < 100 { YearsInOrder(c.year + 1, 100); } else { YearsInOrder(100, c.year); }
  }

  /** The browser and the server give the IST day of this instant the same start and, one
      millisecond and one microsecond of inclusive end apart, the same end. */
  predicate SameBounds(t: int) {
    var from, to := Browser.IstStartOfDay(t), Browser.IstEndOfDay(t);
    from.Some? && to.Some? && Server.IstDayBounds(1000 * t) == Some((1000 * from.value, 1000 * (to.value + 1)))
  }

  /** They do so exactly from the year 100 on, for all days that the server has bounds for. */
  lemma SameDayBounds(t: int)
    requires Server.MIN_DAY < Browser.IstDay(t) <= Server.MAX_DAY
    ensures SameBounds(t) <==> CivilOf(Browser.IstDay(t)).year >= 100
  {
    hide CivilOf, Server.DropTimeOfDay, Server.IstDayBounds, Browser.IstStartOfDay, Browser.IstEndOfDay,
        Browser.ShortYear, YearStart;
    var n := Browser.IstDay(t);
    From100(t);
    SameDays(t, n);
    SameDays(t, n + 1);
    Server.DayBoundsExact(1000 * t);
    Browser.StartOfDayExact(t);
    Browser.DayEndExact(t);
    assert Browser.ShortYear(t) <==> 0 <= Browser.UtcDate(t + Browser.IST_OFFSET).year <= 99 by { ShortYearIs(t); }
  }

  lemma ShortYearIs(t: int)
    ensures Browser.ShortYear(t) <==> 0 <= Browser.UtcDate(t + Browser.IST_OFFSET).year <= 99
  {
  }

  // ---- printed on one side, parsed on the other ----

  lemma MiddleYears(n: int)
    requires 1000 <= CivilOf(n).year <= 9999
    ensures YearStart(100) <= n && Server.MIN_DAY < n <= Server.MAX_DAY
  {
    hide CivilOf;
    var y := CivilOf(n).year;
    DayInItsYear(CivilOf(n));
    YearsInOrder(100, y);
    YearsInOrder(1, y);
    YearsInOrder(y + 1, 10000);
  }

  /** A printed date parses to the midnight of its day, or to its last microsecond, when its year
      has four digits; any other is left to the timestamp parser. */
  lemma KeyParses(n: int, timestamp: Option<Timestamp>)
    ensures var key := Text(DateKey(CivilOf(n)), timestamp);
            if 1000 <= CivilOf(n).year <= 9999 then
              && ParseExplicit(key, false) == Success(Server.IstMidnight(n))
              && ParseExplicit(key, true) == Success(Server.IstMidnight(n + 1) - 1)
            else ParseExplicit(key, false) == ParseExplicit(key, true) == FromTimestamp(timestamp)
  {
    hide CivilOf, ParseDate, DateKey, YearStart;
    DateKeyRoundTrip(CivilOf(n));
    if 1000 <= CivilOf(n).year <= 9999 { MiddleYears(n); }
  }

  /** For the years 1000 to 9999 the printed IST date of an instant parses to that day's IST
      midnight, and as an end bound to its last microsecond, whatever the timestamp parser would make
      of it; the stock-date bounds of the same date agree. The date parser rejects the dates of all
      other years, and the result is that of the timestamp parser. */
  lemma KeyRoundTrip(t: int, timestamp: Option<Timestamp>)
    requires Browser.ValidTime(t) && Browser.ValidTime(t + Browser.IST_OFFSET)
    ensures var key := Text(IstDateKey(t), timestamp);
            var n := Browser.IstDay(t);
            if 1000 <= CivilOf(n).year <= 9999 then
              && ParseExplicit(key, false) == Success(Server.IstMidnight(n))
              && ParseExplicit(key, true) == Success(Server.IstMidnight(n + 1) - 1)
              && Server.IstDayBoundsForDate(n) == Some((Server.IstMidnight(n), Server.IstMidnight(n + 1)))
              && Browser.IstStartOfDay(t).Some? && Server.IstMidnight(n) == 1000 * Browser.IstStartOfDay(t).value
            else
              ParseExplicit(key, false) == ParseExplicit(key, true) == FromTimestamp(timestamp)
  {
    hide CivilOf, Server.IstDayBounds, Server.IstDayBoundsForDate, Browser.IstStartOfDay, ParseExplicit,
        FromTimestamp, DateKey, YearStart;
    var n := Browser.IstDay(t);
    KeyParses(n, timestamp);
    if 1000 <= CivilOf(n).year <= 9999 {
      MiddleYears(n);
      RepresentableFrom100(t);
      Browser.StartsExact(t);
      SameDays(t, n);
      Server.DayBoundsForDateExact(n);
    }
  }

  /** An invalid Date prints a text that is no date. */
  lemma InvalidKeyRejected(t: int)
    requires !Browser.ValidTime(t + Browser.IST_OFFSET)
    ensures IstDateKey(t) == "NaN-NaN-NaN" && ParseDate(IstDateKey(t)) == None
  {
  }

  lemma KeyIsText(t: int)
    ensures IstDateKey(t) != ""
  {
  }

  lemma Labelled(n: int)
    requires Server.MIN_DAY < n <= Server.MAX_DAY
    ensures Server.ToIst(Server.IstMidnight(n)).Some? && Server.ToIst(Server.IstMidnight(n + 1) - 1).Some?
  {
  }

  lemma DaysAre(a: int, b: int)
    ensures Days(a, b) == ResolvedRange(Server.IstMidnight(a), Server.IstMidnight(b + 1) - 1)
    ensures b < a <==> Server.IstMidnight(b + 1) - 1 < Server.IstMidnight(a)
  {
  }

  /** A range picked in the browser and sent as two printed dates covers exactly the IST days from
      the first to the second, or is refused as reversed. */
  lemma PickedRange(a: int, b: int, from: Option<Timestamp>, to: Option<Timestamp>,
                    preset: Option<PresetName>, now: int, default: PresetName, t: int)
    requires Browser.ValidTime(a) && Browser.ValidTime(a + Browser.IST_OFFSET)
    requires Browser.ValidTime(b) && Browser.ValidTime(b + Browser.IST_OFFSET)
    requires 1000 <= CivilOf(Browser.IstDay(a)).year <= 9999 && 1000 <= CivilOf(Browser.IstDay(b)).year <= 9999
    ensures var r := Resolve(preset, Some(Text(IstDateKey(a), from)), Some(Text(IstDateKey(b), to)), now, default);
            if Browser.IstDay(b) < Browser.IstDay(a) then r == Failure(Reversed)
            else r.Success? && (Within(t, r.value) <==> Browser.IstDay(a) <= Server.IstDay(t) <= Browser.IstDay(b))
  {
    hide CivilOf, ParseExplicit, IstDateKey, ResolvePreset, Server.ToIst, Server.IstMidnight, Days, YearStart,
        Server.IstDayBoundsForDate, Browser.IstStartOfDay;
    KeyIsText(a);
    KeyRoundTrip(a, from);
    KeyIsText(b);
    KeyRoundTrip(b, to);
    MiddleYears(Browser.IstDay(a));
    MiddleYears(Browser.IstDay(b));
    Labelled(Browser.IstDay(a));
    Labelled(Browser.IstDay(b));
    DaysAre(Browser.IstDay(a), Browser.IstDay(b));
    WithinDays(t, Browser.IstDay(a), Browser.IstDay(b));
  }

  /** A printed start alone: the range runs from that day to "now". */
  lemma FromAlone(a: int, from: Option<Timestamp>, to: Option<Text>, preset: Option<PresetName>, now: int,
                  default: PresetName, t: int)
    requires Browser.ValidTime(a) && Browser.ValidTime(a + Browser.IST_OFFSET)
    requires 1000 <= CivilOf(Browser.IstDay(a)).year <= 9999 && (to.None? || to.value.raw == "")
    requires Server.MIN_INSTANT <= now <= Server.MAX_INSTANT
    ensures var r := Resolve(preset, Some(Text(IstDateKey(a), from)), to, now, default);
            if Server.IstDay(now) < Browser.IstDay(a) then r == Failure(Reversed)
            else if now + Server.IST_OFFSET > Server.MAX_INSTANT then r == Failure(OutOfRange)
            else r.Success? && (Within(t, r.value) <==> Browser.IstDay(a) <= Server.IstDay(t) && t <= now)
  {
    hide CivilOf, ParseExplicit, IstDateKey, ResolvePreset, YearStart;
    var n := Browser.IstDay(a);
    KeyIsText(a);
    KeyRoundTrip(a, from);
    MiddleYears(n);
    StartOfDayIs(n, now);
    StartOfDayIs(n, t);
  }

  /** A printed end alone: the range runs from 2000-01-01, 00:00 UTC, through that day. */
  lemma ToAlone(b: int, from: Option<Text>, to: Option<Timestamp>, preset: Option<PresetName>, now: int,
                default: PresetName, t: int)
    requires Browser.ValidTime(b) && Browser.ValidTime(b + Browser.IST_OFFSET)
    requires 1000 <= CivilOf(Browser.IstDay(b)).year <= 9999 && (from.None? || from.value.raw == "")
    ensures var r := Resolve(preset, from, Some(Text(IstDateKey(b), to)), now, default);
            if Browser.IstDay(b) < DayNumber(Civil(2000, 1, 1)) then r == Failure(Reversed)
            else r.Success? && (Within(t, r.value) <==>
                                  DayNumber(Civil(2000, 1, 1)) * Server.DAY <= t
                                      && Server.IstDay(t) <= Browser.IstDay(b))
  {
    hide CivilOf, ParseExplicit, IstDateKey, ResolvePreset, YearStart, DayNumber;
    var n := Browser.IstDay(b);
    KeyIsText(b);
    KeyRoundTrip(b, to);
    MiddleYears(n);
    EarliestIs();
    EarliestDay();
    StartOfDayIs(n + 1, t);
    Labelled(n);
  }

  lemma StartOfDayIs(n: int, t: int)
    ensures Server.IstMidnight(n) <= t <==> n <= Server.IstDay(t)
    ensures Server.MIN_DAY < n <= Server.MAX_DAY ==> Server.ToIst(Server.IstMidnight(n)).Some?
  {
  }

  lemma EarliestDay()
    ensures DayNumber(Civil(2000, 1, 1)) == 10957
  {
  }

  // ---- dashboard presets and chat presets ----

  /** The chat preset with the dashboard preset's meaning: its weeks and months end today. */
  function Counterpart(p: Browser.DashboardPreset): Preset {
    match p
    case Today => Today
    case Yesterday => Yesterday
    case ThisWeek => WeekToDate
    case ThisMonth => MonthToDate
    case Last7Days => Last7Days
    case Last30Days => Last30Days
  }

  function DashboardFirst(p: Browser.DashboardPreset, today: int): int {
    FirstDay(Counterpart(p), today)
  }

  function DashboardLast(p: Browser.DashboardPreset, today: int): int {
    LastDay(Counterpart(p), today)
  }

  lemma EarlierDay(now: int, days: nat)
    requires YearStart(100) <= Browser.IstDay(now) - days && Browser.IstDay(now) <= Server.MAX_DAY
    ensures Browser.StartOfDayBefore(now, days) == Some(Browser.IstMidnight(Browser.IstDay(now) - days))
    ensures Browser.TimeClip(now - days * Browser.DAY) == Some(now - days * Browser.DAY)
    ensures Browser.IstEndOfDay(now - days * Browser.DAY)
            == Some(Browser.IstMidnight(Browser.IstDay(now) - days + 1) - 1)
    ensures Browser.IstStartOfDay(now - days * Browser.DAY) == Some(Browser.IstMidnight(Browser.IstDay(now) - days))
  {
    hide CivilOf, YearStart, Browser.IstStartOfDay, Browser.IstEndOfDay;
    var t := now - days * Browser.DAY;
    assert Browser.IstDay(t) == Browser.IstDay(now) - days;
    RepresentableFrom100(t);
    Browser.StartsExact(t);
  }

  /** The first of a month of the supported range is a valid Date. */
  lemma MonthMidnightValid(n: int)
    requires Server.MIN_DAY < FirstOfMonth(n) <= n <= Server.MAX_DAY
    ensures Browser.MonthMidnight(n) == Some(Browser.IstMidnight(FirstOfMonth(n)))
  {
    hide CivilOf;
  }

  /** The day whose start of day the browser computes for the preset: where its year is a short
      one, the preset goes wrong. */
  function AnchorDay(p: Browser.DashboardPreset, today: int): int {
    match p
    case Yesterday => today - 1
    case Last7Days => today - 6
    case Last30Days => today - 29
    case _ => today
  }

  lemma DashboardDays(p: Browser.DashboardPreset, now: int)
    requires Server.MIN_DAY < DashboardFirst(p, Browser.IstDay(now)) && Browser.IstDay(now) <= Server.MAX_DAY
    requires YearStart(100) <= AnchorDay(p, Browser.IstDay(now))
    ensures var today := Browser.IstDay(now);
            Browser.ResolveDashboardPreset(p, now)
            == Some(Browser.DashboardRange(Browser.IstMidnight(DashboardFirst(p, today)),
                                           Browser.IstMidnight(DashboardLast(p, today) + 1) - 1))
  {
    hide CivilOf, YearStart, FirstOfMonth, Browser.IstStartOfDay, Browser.IstEndOfDay,
      Browser.IstStartOfWeek, Browser.IstStartOfMonth, Browser.StartOfDayBefore;
    var today := Browser.IstDay(now);
    FirstOfMonthBound(today);
    EarlierDay(now, 0);
    RepresentableFrom100(now);
    Browser.StartsExact(now);
    match p {
      case Today =>
      case Yesterday => EarlierDay(now, 1);
      case ThisWeek => MidnightClips(DashboardFirst(p, today));
      case ThisMonth => MonthMidnightValid(today);
      case Last7Days => EarlierDay(now, 6);
      case Last30Days => EarlierDay(now, 29);
    }
  }

  lemma MidnightClips(n: int)
    requires Server.MIN_DAY < n <= Server.MAX_DAY
    ensures Browser.TimeClip(Browser.IstMidnight(n)) == Some(Browser.IstMidnight(n))
  {
  }

  /** In a short year the browser finds none of its starts. */
  lemma StartsFail(t: int)
    requires Server.MIN_DAY < Browser.IstDay(t) <= Server.MAX_DAY && CivilOf(Browser.IstDay(t)).year < 100
    ensures var n := Browser.IstDay(t);
            && Browser.IstStartOfDay(t) != Some(Browser.IstMidnight(n))
            && Browser.IstStartOfWeek(t) != Some(Browser.IstMidnight(n - MondayBased(n)))
            && Browser.IstStartOfMonth(t) != Some(Browser.IstMidnight(FirstOfMonth(n)))
  {
    hide CivilOf, YearStart, FirstOfMonth, Browser.IstStartOfDay, Browser.IstStartOfWeek, Browser.IstStartOfMonth,
      Browser.ShortYear, Browser.UtcDate;
    From100(t);
    ShortYearIs(t);
    Browser.StartOfDayExact(t);
    Browser.WeekStartExact(t);
    Browser.MonthStartExact(t);
    MonthStartIs(Browser.IstDay(t));
  }

  lemma DashboardFails(p: Browser.DashboardPreset, now: int)
    requires Server.MIN_DAY < DashboardFirst(p, Browser.IstDay(now)) && Browser.IstDay(now) <= Server.MAX_DAY
    requires CivilOf(AnchorDay(p, Browser.IstDay(now))).year < 100
    ensures var browser := Browser.ResolveDashboardPreset(p, now);
            browser.Some? ==> browser.value.from != Browser.IstMidnight(DashboardFirst(p, Browser.IstDay(now)))
  {
    hide CivilOf, YearStart, FirstOfMonth, Browser.IstStartOfDay, Browser.IstEndOfDay,
      Browser.IstStartOfWeek, Browser.IstStartOfMonth;
    var today := Browser.IstDay(now);
    FirstOfMonthBound(today);
    var back := today - AnchorDay(p, today);
    assert Browser.IstDay(now - back * Browser.DAY) == today - back;
    StartsFail(now - back * Browser.DAY);
  }

  lemma MonthStartIs(n: int)
    ensures DayNumber(Browser.MonthStartDate(n)) == FirstOfMonth(n)
  {
    hide CivilOf;
  }

  /** Both resolve, to the same start, and to inclusive ends at the last millisecond and the last
      microsecond of the same day. */
  predicate SameRange(browser: Option<Browser.DashboardRange>, server: Option<ResolvedRange>) {
    && browser.Some? && server.Some?
    && server.value.dateFrom == 1000 * browser.value.from
    && server.value.dateTo == 1000 * browser.value.to + 999
  }

  lemma ServerResolves(p: Browser.DashboardPreset, now: int)
    requires ResolvePreset(Counterpart(p), 1000 * now).Some?
    ensures var q, today := Counterpart(p), Browser.IstDay(now);
            && Server.MIN_DAY < FirstDay(q, today) && AnchorDay(p, today) <= today <= Server.MAX_DAY
            && FirstDay(q, today) <= AnchorDay(p, today)
            && ResolvePreset(q, 1000 * now) == Some(Days(FirstDay(q, today), LastDay(q, today)))
  {
    hide CivilOf, YearStart, FirstOfMonth, ResolvePreset, Days;
    var today := Browser.IstDay(now);
    SameDays(now, today);
    FirstOfMonthBound(today);
    PresetsResolve(Counterpart(p), 1000 * now);
    ResolvedDays(Counterpart(p), 1000 * now);
  }

  /** Whenever the server resolves the chat counterpart of a dashboard preset, the two agree exactly
      when the day the browser starts from is in the year 100 or later. */
  lemma PresetsAgree(p: Browser.DashboardPreset, now: int)
    requires ResolvePreset(Counterpart(p), 1000 * now).Some?
    ensures SameRange(Browser.ResolveDashboardPreset(p, now), ResolvePreset(Counterpart(p), 1000 * now)) <==>
              CivilOf(AnchorDay(p, Browser.IstDay(now))).year >= 100
  {
    hide CivilOf, YearStart, FirstDay, LastDay, AnchorDay, Browser.ResolveDashboardPreset, ResolvePreset;
    var q, today := Counterpart(p), Browser.IstDay(now);
    ServerResolves(p, now);
    SameDays(now, FirstDay(q, today));
    SameDays(now, LastDay(q, today) + 1);
    if CivilOf(AnchorDay(p, today)).year >= 100 {
      YearFrom100(AnchorDay(p, today));
      DashboardDays(p, now);
    } else {
      DashboardFails(p, now);
    }
  }

  lemma YearFrom100(n: int)
    requires CivilOf(n).year >= 100
    ensures YearStart(100) <= n
  {
    hide CivilOf;
    DayInItsYear(CivilOf(n));
    YearsInOrder(100, CivilOf(n).year);
  }

  /** The chat preset with the dashboard preset's name, where their meanings differ. */
  function SameName(p: Browser.DashboardPreset): Preset {
    match p
    case ThisWeek => ThisWeek
    case ThisMonth => ThisMonth
    case _ => Counterpart(p)
  }

  /** The dashboard's "this week" and "this month" stop today; the chat presets of the same name run
      to the end of the week and month. From the year 100 on they start together, and they agree
      exactly on Sundays and on the last day of a month. */
  lemma SameNameDiffers(p: Browser.DashboardPreset, now: int)
    requires p.ThisWeek? || p.ThisMonth?
    requires ResolvePreset(SameName(p), 1000 * now).Some?
    ensures var browser, server := Browser.ResolveDashboardPreset(p, now), ResolvePreset(SameName(p), 1000 * now);
            var today := Browser.IstDay(now);
            && (CivilOf(today).year >= 100 ==> browser.Some? && server.value.dateFrom == 1000 * browser.value.from)
            && (SameRange(browser, server) <==>
                  && CivilOf(today).year >= 100
                  && if p.ThisWeek? then MondayBased(today) == 6
                     else CivilOf(today).day == DaysInMonth(CivilOf(today).year, CivilOf(today).month))
  {
    hide CivilOf, YearStart, IsLeap, FirstOfMonth, Browser.ResolveDashboardPreset, ResolvePreset;
    var q, today := SameName(p), Browser.IstDay(now);
    SameDays(now, FirstDay(q, today));
    SameDays(now, LastDay(q, today) + 1);
    SameDays(now, today + 1);
    PresetsResolve(q, 1000 * now);
    ResolvedDays(q, 1000 * now);
    FirstOfMonthBound(today);
    if CivilOf(today).year >= 100 {
      YearFrom100(today);
      DashboardDays(p, now);
      LastOfMonthIsToday(today);
    } else {
      DashboardFails(p, now);
    }
  }

  lemma LastOfMonthIsToday(n: int)
    ensures LastOfMonth(CivilOf(n)) == n <==> CivilOf(n).day == DaysInMonth(CivilOf(n).year, CivilOf(n).month)
  {
    hide CivilOf, YearStart, IsLeap;
  }
}
