/** The proleptic Gregorian calendar, from scratch: civil dates, day numbers counted from
    1970-01-01 (section 21.4.1 of ECMA-262), weekdays, and the round trip between the two. */
module Calendar {

  datatype Civil = Civil(year: int, month: int, day: int)

  predicate IsLeap(y: int) {
    y % 4 == 0 && (y % 100 != 0 || y % 400 == 0)
  }

  function DaysInMonth(y: int, m: int): (n: int)
    ensures 28 <= n <= 31
  {
    if m == 2 then (if IsLeap(y) then 29 else 28)
    else if m == 4 || m == 6 || m == 9 || m == 11 then 30
    else 31
  }

  predicate Valid(c: Civil) {
    1 <= c.month <= 12 && 1 <= c.day <= DaysInMonth(c.year, c.month)
  }

  type Date = c: Civil | Valid(c) witness Civil(1970, 1, 1)

  /** The day number of 1 January of year y. */
  function YearStart(y: int): int {
    365 * (y - 1970) + (y - 1969) / 4 - (y - 1901) / 100 + (y - 1601) / 400
  }

  function YearLength(y: int): int {
    if IsLeap(y) then 366 else 365
  }

  lemma YearStep(y: int)
    ensures YearStart(y + 1) == YearStart(y) + YearLength(y)
  {
    assert (y - 1968) / 4 == (y - 1969) / 4 + (if y % 4 == 0 then 1 else 0);
    assert (y - 1900) / 100 == (y - 1901) / 100 + (if y % 100 == 0 then 1 else 0);
    assert (y - 1600) / 400 == (y - 1601) / 400 + (if y % 400 == 0 then 1 else 0);
  }

  lemma {:induction false} YearsInOrder(a: int, b: int)
    requires a <= b
    ensures YearStart(a) + 365 * (b - a) <= YearStart(b)
    decreases b - a
  {
    if a < b {
      YearStep(a);
      YearsInOrder(a + 1, b);
    }
  }

  const MONTH_STARTS: seq<int> := [0, 31, 59, 90, 120, 151, 181, 212, 243, 273, 304, 334, 365]

  /** Days of year y before the first of month m; month 13 is the following January. */
  function MonthStart(y: int, m: int): int
    requires 1 <= m <= 13
  {
    MONTH_STARTS[m - 1] + if m > 2 && IsLeap(y) then 1 else 0
  }

  lemma MonthStep(y: int, m: int)
    requires 1 <= m <= 12
    ensures MonthStart(y, m + 1) == MonthStart(y, m) + DaysInMonth(y, m)
    ensures MonthStart(y, 1) == 0 && MonthStart(y, 13) == YearLength(y)
  {
  }

  lemma {:induction false} MonthsInOrder(y: int, a: int, b: int)
    requires 1 <= a <= b <= 13
    ensures MonthStart(y, a) + 28 * (b - a) <= MonthStart(y, b)
    decreases b
  {
    if a < b {
      MonthStep(y, b - 1);
      MonthsInOrder(y, a, b - 1);
    }
  }

  /** Days from 1970-01-01 to the given date. */
  function DayNumber(c: Civil): int
    requires 1 <= c.month <= 12
  {
    YearStart(c.year) + MonthStart(c.year, c.month) + c.day - 1
  }

  function YearUp(n: int, y: int): (r: int)
    requires YearStart(y) <= n
    ensures YearStart(r) <= n < YearStart(r + 1)
    decreases n - YearStart(y)
  {
    YearStep(y);
    if n < YearStart(y + 1) then y else YearUp(n, y + 1)
  }

  function YearDown(n: int, y: int): (r: int)
    requires n < YearStart(y + 1)
    ensures YearStart(r) <= n < YearStart(r + 1)
    decreases YearStart(y + 1) - n
  {
    YearStep(y);
    if YearStart(y) <= n then y else YearDown(n, y - 1)
  }

  /** The year that contains day n (`YearFromTime` of ECMA-262). */
  function YearOf(n: int): (y: int)
    ensures YearStart(y) <= n < YearStart(y + 1)
  {
    YearStep(1970);
    if n >= 0 then YearUp(n, 1970) else YearDown(n, 1970)
  }

  lemma YearUnique(n: int, y: int)
    requires YearStart(y) <= n < YearStart(y + 1)
    ensures YearOf(n) == y
  {
    if YearOf(n) < y { YearsInOrder(YearOf(n) + 1, y); }
    if y < YearOf(n) { YearsInOrder(y + 1, YearOf(n)); }
  }

  function MonthFrom(y: int, d: int, m: int): (r: int)
    requires 1 <= m <= 12 && MonthStart(y, m) <= d < YearLength(y)
    ensures m <= r <= 12 && MonthStart(y, r) <= d < MonthStart(y, r + 1)
    decreases 12 - m, y, d
  {
    MonthStep(y, 1);
    if d < MonthStart(y, m + 1) then m else MonthFrom(y, d, m + 1)
  }

  /** The civil date of day n. */
  function CivilOf(n: int): (c: Civil)
    ensures Valid(c) && DayNumber(c) == n
  {
    var y := YearOf(n);
    YearStep(y);
    MonthStep(y, 1);
    var d := n - YearStart(y);
    var m := MonthFrom(y, d, 1);
    MonthStep(y, m);
    Civil(y, m, d - MonthStart(y, m) + 1)
  }

  predicate Before(a: Civil, b: Civil) {
    a.year < b.year || (a.year == b.year && (a.month < b.month || (a.month == b.month && a.day < b.day)))
  }

  lemma DayInItsYear(c: Civil)
    requires Valid(c)
    ensures YearStart(c.year) <= DayNumber(c) < YearStart(c.year + 1)
  {
    YearStep(c.year);
    MonthStep(c.year, c.month);
    MonthsInOrder(c.year, 1, c.month);
    MonthsInOrder(c.year, c.month + 1, 13);
  }

  lemma EarlierIsSmaller(a: Civil, b: Civil)
    requires Valid(a) && Valid(b) && Before(a, b)
    ensures DayNumber(a) < DayNumber(b)
  {
    if a.year < b.year {
      DayInItsYear(a);
      DayInItsYear(b);
      YearsInOrder(a.year + 1, b.year);
    } else if a.month < b.month {
      MonthStep(a.year, a.month);
      MonthsInOrder(a.year, a.month + 1, b.month);
    }
  }

  /** Dates and day numbers are the same order. */
  lemma SameOrder(a: Civil, b: Civil)
    requires Valid(a) && Valid(b)
    ensures DayNumber(a) < DayNumber(b) <==> Before(a, b)
    ensures DayNumber(a) == DayNumber(b) <==> a == b
  {
    if Before(a, b) { EarlierIsSmaller(a, b); }
    if Before(b, a) { EarlierIsSmaller(b, a); }
  }

  /** Splitting a day number into year, month and day and recombining them loses nothing, either
      way round. */
  lemma CivilRoundTrip(n: int, c: Civil)
    requires Valid(c)
    ensures DayNumber(CivilOf(n)) == n && Valid(CivilOf(n))
    ensures CivilOf(DayNumber(c)) == c
  {
    SameOrder(CivilOf(DayNumber(c)), c);
  }

  lemma CivilUnique(n: int, c: Date)
    requires DayNumber(c) == n
    ensures CivilOf(n) == c
  {
    SameOrder(CivilOf(n), c);
  }

  /** The day before the first of a month, and before the first of a year. */
  lemma MonthEnds(y: int, m: int)
    requires 1 <= m <= 11
    ensures DayNumber(Civil(y, m, DaysInMonth(y, m))) == DayNumber(Civil(y, m + 1, 1)) - 1
  {
    MonthStep(y, m);
  }

  lemma YearEnds(y: int)
    ensures DayNumber(Civil(y, 12, 31)) == DayNumber(Civil(y + 1, 1, 1)) - 1 == YearStart(y + 1) - 1
    ensures DayNumber(Civil(y, 1, 1)) == YearStart(y)
  {
    YearStep(y);
    MonthStep(y, 12);
    MonthStep(y + 1, 1);
  }

  /** Monday is 0; 1970-01-01 was a Thursday. */
  function MondayBased(n: int): int {
    (n + 3) % 7
  }

  /** Weeks start on Monday. */
  function WeekOf(n: int): int {
    (n + 3) / 7
  }

  /** The Monday of the week k weeks before that of day n, and the seven days from it on. */
  lemma WeekDays(n: int, k: int, day: int)
    ensures n - MondayBased(n) - 7 * k == 7 * (WeekOf(n) - k) - 3
    ensures 7 * (WeekOf(n) - k) - 3 <= day <= 7 * (WeekOf(n) - k) + 3 <==> WeekOf(day) == WeekOf(n) - k
  {
    assert n + 3 == 7 * WeekOf(n) + MondayBased(n);
    assert day + 3 == 7 * WeekOf(day) + MondayBased(day);
  }

  /** The proleptic ordinal of Python's `datetime.date`. */
  function Ordinal(c: Civil): int
    requires 1 <= c.month <= 12
  {
    var y := c.year - 1;
    365 * y + y / 4 - y / 100 + y / 400 + MonthStart(c.year, c.month) + c.day
  }

  lemma SameOrdinal(c: Civil)
    requires 1 <= c.month <= 12
    ensures Ordinal(c) == DayNumber(c) + 719163
  {
    var y := c.year;
    assert (y - 1) / 4 == (y - 1969) / 4 + 492;
    assert (y - 1) / 100 == (y - 1901) / 100 + 19;
    assert (y - 1) / 400 == (y - 1601) / 400 + 4;
  }

  lemma SameWeekday(n: int)
    ensures (n + 719163 + 6) % 7 == MondayBased(n) == ((n + 4) % 7 + 6) % 7
  {
    assert n + 719163 + 6 == (n + 3) + 7 * 102738;
  }

  /** The two languages count the same days: their epochs differ by a constant, and their two
      weekday formulas name the same Monday. */
  lemma OneCalendar(c: Date)
    ensures Ordinal(c) == DayNumber(c) + 719163
    ensures (Ordinal(c) + 6) % 7 == MondayBased(DayNumber(c)) == ((DayNumber(c) + 4) % 7 + 6) % 7
  {
    SameOrdinal(c);
    SameWeekday(DayNumber(c));
  }
}
