/** IST calendar days on the server. Instants are microseconds since 1970-01-01T00:00Z; `Clip`
    is the year 1 to 9999 range outside which Python's datetime raises. */
module IstBackend {
  import opened Wrappers
  import opened Calendar

  const IST_OFFSET := 19_800_000_000
  const DAY := 86_400_000_000
  const MIN_DAY := -719_162
  const MAX_DAY := 2_932_896
  const MIN_INSTANT := MIN_DAY * DAY
  const MAX_INSTANT := (MAX_DAY + 1) * DAY - 1

  /** Five and a half hours, and a day. */
  lemma UnitsAre()
    ensures IST_OFFSET == (5 * 60 + 30) * 60 * 1_000_000 && DAY == 24 * 60 * 60 * 1_000_000
  {
  }

  lemma LimitYears()
    ensures YearStart(1) == MIN_DAY && YearStart(10000) == MAX_DAY + 1
  {
  }

  lemma SupportedYears(c: Civil)
    requires Valid(c)
    ensures MIN_DAY <= DayNumber(c) <= MAX_DAY <==> 1 <= c.year <= 9999
  {
    hide YearStart, DayNumber, Valid;
    var y := c.year;
    DayInItsYear(c);
    LimitYears();
    if 1 <= y { YearsInOrder(1, y); } else { YearsInOrder(y + 1, 1); }
    if y <= 9999 { YearsInOrder(y + 1, 10000); } else { YearsInOrder(10000, y); }
  }

  /** The supported days are those of the years 1 to 9999. */
  lemma SupportedDays(n: int)
    ensures MIN_DAY <= n <= MAX_DAY <==> 1 <= CivilOf(n).year <= 9999
  {
    hide DayNumber, CivilOf, Valid;
    SupportedYears(CivilOf(n));
  }

  function Clip(t: int): Option<int> {
    if MIN_INSTANT <= t <= MAX_INSTANT then Some(t) else None
  }

  /** The IST day number of an instant, by floor division. */
  function IstDay(t: int): int {
    (t + IST_OFFSET) / DAY
  }

  /** The instant of 00:00 IST of a day number. */
  function IstMidnight(n: int): int {
    n * DAY - IST_OFFSET
  }

  function ToIst(t: int): Option<int> {
    Clip(t + IST_OFFSET)
  }

  /** `replace(hour=0, minute=0, second=0, microsecond=0)` keeps only the date. */
  function DropTimeOfDay(t: int): int {
    DayNumber(CivilOf(t / DAY)) * DAY
  }

  function IstDayBounds(reference: int): Option<(int, int)> {
    var istNow :- ToIst(reference);
    var start :- Clip(DropTimeOfDay(istNow) - IST_OFFSET);
    var tomorrow :- Clip(start + DAY);
    Some((start, tomorrow))
  }

  /** Noon UTC of the date stands for the whole IST day. Dates are passed as day numbers. */
  function IstDayBoundsForDate(n: int): Option<(int, int)> {
    IstDayBounds(n * DAY + DAY / 2)
  }

  /** The 24-hour half-open IST days tile the timeline: every instant lies in exactly one, and
      each day ends where the next begins. */
  lemma DaysTile(t: int, n: int)
    ensures IstMidnight(n) <= t < IstMidnight(n + 1) <==> n == IstDay(t)
    ensures IstMidnight(n + 1) == IstMidnight(n) + DAY
  {
  }

  /** Splitting an instant into year, month and day and recombining them is floor division. */
  lemma Recombined(t: int)
    ensures DropTimeOfDay(t) == t / DAY * DAY
  {
  }

  /** The day bounds are the floor-division day of the reference, whenever they are datetimes. */
  lemma DayBoundsExact(t: int)
    ensures IstDayBounds(t) ==
            if MIN_DAY <= IstDay(t) <= MAX_DAY && MIN_INSTANT <= IstMidnight(IstDay(t))
            then Some((IstMidnight(IstDay(t)), IstMidnight(IstDay(t) + 1))) else None
  {
    hide CivilOf, DropTimeOfDay;
    Recombined(t + IST_OFFSET);
  }

  lemma NoonIsInItsDay(n: int)
    ensures IstDay(n * DAY + DAY / 2) == n
  {
  }

  /** Noon UTC is inside the IST day of its own date, so the day picked on the stock page is the
      IST day of that date. The first day of year 1 is the only date without bounds. */
  lemma DayBoundsForDateExact(n: int)
    ensures IstDayBoundsForDate(n) ==
            if MIN_DAY < n <= MAX_DAY then Some((IstMidnight(n), IstMidnight(n + 1))) else None
  {
    hide IstDayBounds;
    var noon := n * DAY + DAY / 2;
    NoonIsInItsDay(n);
    DayBoundsExact(noon);
  }
}
