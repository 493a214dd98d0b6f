/** Calendar dates as text: what the browser prints, what the server parses, and the explicit
    ranges a caller may pass instead of a preset. */
module DateText {
  import opened Wrappers
  import opened Decimals
  import opened Calendar
  import opened IstBackend
  import opened DateRanges

  function DateKey(c: Date): string {
    Signed(c.year) + "-" + PadTwo(c.month) + "-" + PadTwo(c.day)
  }

  function DateParts(y: string, m: string, d: string): Option<int>
    requires AllDigits(y) && AllDigits(m) && AllDigits(d)
  {
    var c := Civil(ParseNat(y), ParseNat(m), ParseNat(d));
    if 1 <= c.year <= 9999 && Valid(c) then Some(DayNumber(c)) else None
  }

  /** `date.fromisoformat` on calendar dates, `YYYY-MM-DD` or `YYYYMMDD`. */
  function ParseDate(s: string): Option<int> {
    if |s| == 10 && s[4] == '-' && s[7] == '-' && AllDigits(s[..4]) && AllDigits(s[5..7]) && AllDigits(s[8..]) then
      DateParts(s[..4], s[5..7], s[8..])
    else if |s| == 8 && AllDigits(s) then
      DateParts(s[..4], s[4..6], s[6..])
    else
      None
  }

  lemma KeyParts(c: Date)
    ensures var key, y := DateKey(c), |Signed(c.year)|;
            && |key| == y + 6 && key[..y] == Signed(c.year) && key[y] == '-'
            && key[y + 1..y + 3] == PadTwo(c.month) && key[y + 3] == '-' && key[y + 4..] == PadTwo(c.day)
  {
    PadTwoRoundTrip(c.month);
    PadTwoRoundTrip(c.day);
  }

  lemma YearTextLength(y: int)
    ensures 1000 <= y <= 9999 <==> y >= 0 && |Signed(y)| == 4
    ensures y < 0 ==> Signed(y)[0] == '-'
  {
    DigitsLength(if y < 0 then -y else y);
  }

  /** A printed date parses back to itself exactly for the years the parser can read: those that
      print with four digits. */
  lemma DateKeyRoundTrip(c: Date)
    ensures ParseDate(DateKey(c)) == if 1000 <= c.year <= 9999 then Some(DayNumber(c)) else None
  {
    var key := DateKey(c);
    KeyParts(c);
    YearTextLength(c.year);
    if 1000 <= c.year <= 9999 {
      DigitsRoundTrip(c.year);
      PadTwoRoundTrip(c.month);
      PadTwoRoundTrip(c.day);
      assert ParseDate(key) == DateParts(Signed(c.year), PadTwo(c.month), PadTwo(c.day));
    } else {
      KeyRejected(c);
    }
  }

  lemma KeyRejected(c: Date)
    requires !(1000 <= c.year <= 9999)
    ensures ParseDate(DateKey(c)) == None
  {
    var key, y := DateKey(c), |Signed(c.year)|;
    KeyParts(c);
    YearTextLength(c.year);
    assert key[y] == '-' && !IsDigit('-');
    if |key| == 10 {
      assert key[0] == '-' && key[..4][0] == key[0];
    }
  }

  // ---- the texts that are dates ----

  /** A year from 0 to 9999 in four digits. */
  function PadFour(y: nat): string {
    PadTwo(y / 100) + PadTwo(y % 100)
  }

  lemma TwoDigitsAre(s: string)
    requires |s| == 2 && AllDigits(s)
    ensures ParseNat(s) == 10 * ValueOf(s[0]) + ValueOf(s[1]) < 100 && PadTwo(ParseNat(s)) == s
  {
    assert s[..1] == [s[0]] && [s[0]][..0] == [];
    assert ParseNat([]) == 0;
    assert ParseNat([s[0]]) == ValueOf(s[0]);
    PadTwoRoundTrip(ParseNat(s));
  }

  lemma FourDigitsAre(s: string)
    requires |s| == 4 && AllDigits(s)
    ensures ParseNat(s) < 10000 && PadFour(ParseNat(s)) == s
  {
    hide PadTwo, ParseNat, AllDigits;
    HalvesAreDigits(s);
    TwoDigitsAre(s[..2]);
    TwoDigitsAre(s[2..]);
    FourDigitsSplit(s);
    assert s == s[..2] + s[2..];
  }

  lemma HalvesAreDigits(s: string)
    requires |s| == 4 && AllDigits(s)
    ensures AllDigits(s[..2]) && AllDigits(s[2..])
  {
  }

  lemma FourDigitsSplit(s: string)
    requires |s| == 4 && AllDigits(s)
    ensures ParseNat(s) == 100 * ParseNat(s[..2]) + ParseNat(s[2..])
  {
    TwoDigitsAre(s[2..]);
    assert s[..3][..2] == s[..2] && s[2..][0] == s[2] && s[2..][1] == s[3];
    assert ParseNat(s) == 10 * ParseNat(s[..3]) + ValueOf(s[3]);
    assert ParseNat(s[..3]) == 10 * ParseNat(s[..2]) + ValueOf(s[2]);
  }

  lemma PadFourRoundTrip(y: nat)
    requires y < 10000
    ensures |PadFour(y)| == 4 && AllDigits(PadFour(y)) && ParseNat(PadFour(y)) == y
  {
    PadTwoRoundTrip(y / 100);
    PadTwoRoundTrip(y % 100);
    FourDigitsSplit(PadFour(y));
    assert PadFour(y)[..2] == PadTwo(y / 100) && PadFour(y)[2..] == PadTwo(y % 100);
  }

  /** The text is this date, in the extended or in the basic form. */
  predicate Writes(s: string, c: Date) {
    && 1 <= c.year <= 9999
    && (|| s == PadFour(c.year) + "-" + PadTwo(c.month) + "-" + PadTwo(c.day)
        || s == PadFour(c.year) + PadTwo(c.month) + PadTwo(c.day))
  }

  lemma PartsAre(y: string, m: string, d: string, c: Date)
    requires |y| == 4 && |m| == |d| == 2 && AllDigits(y) && AllDigits(m) && AllDigits(d) && 1 <= c.year <= 9999
    ensures y == PadFour(c.year) && m == PadTwo(c.month) && d == PadTwo(c.day) <==>
              c == Civil(ParseNat(y), ParseNat(m), ParseNat(d))
  {
    FourDigitsAre(y);
    TwoDigitsAre(m);
    TwoDigitsAre(d);
    PadFourRoundTrip(c.year);
    PadTwoRoundTrip(c.month);
    PadTwoRoundTrip(c.day);
  }

  lemma DatePartsExact(y: string, m: string, d: string, c: Date)
    requires |y| == 4 && |m| == |d| == 2 && AllDigits(y) && AllDigits(m) && AllDigits(d)
    ensures DateParts(y, m, d) == Some(DayNumber(c)) <==>
              1 <= c.year <= 9999 && y == PadFour(c.year) && m == PadTwo(c.month) && d == PadTwo(c.day)
  {
    hide DayNumber, PadFour, PadTwo;
    var parsed := Civil(ParseNat(y), ParseNat(m), ParseNat(d));
    if 1 <= c.year <= 9999 { PartsAre(y, m, d, c); }
    if Valid(parsed) { SameOrder(parsed, c); }
  }

  /** A text is parsed as a date exactly when it is that date written out, years 1 to 9999. */
  lemma ParseDateExact(s: string, c: Date)
    ensures ParseDate(s) == Some(DayNumber(c)) <==> Writes(s, c)
  {
    hide DayNumber, DateParts, PadTwo, PadFour;
    PadTwoRoundTrip(c.month);
    PadTwoRoundTrip(c.day);
    if 0 <= c.year <= 9999 { PadFourRoundTrip(c.year); }
    if |s| == 10 && s[4] == '-' && s[7] == '-' && AllDigits(s[..4]) && AllDigits(s[5..7]) && AllDigits(s[8..]) {
      DatePartsExact(s[..4], s[5..7], s[8..], c);
      assert s == s[..4] + "-" + s[5..7] + "-" + s[8..];
    } else if |s| == 8 && AllDigits(s) {
      DatePartsExact(s[..4], s[4..6], s[6..], c);
      assert s == s[..4] + s[4..6] + s[6..];
    }
    LongFormIs(s, c);
  }

  lemma LongFormIs(s: string, c: Date)
    requires 0 <= c.year <= 9999 ==> |PadFour(c.year)| == 4 && AllDigits(PadFour(c.year))
    requires |PadTwo(c.month)| == |PadTwo(c.day)| == 2 && AllDigits(PadTwo(c.month)) && AllDigits(PadTwo(c.day))
    ensures Writes(s, c) ==>
              || (&& |s| == 10 && s[4] == '-' && s[7] == '-'
                  && s[..4] == PadFour(c.year) && s[5..7] == PadTwo(c.month) && s[8..] == PadTwo(c.day))
              || (|s| == 8 && AllDigits(s) && s[..4] == PadFour(c.year) && s[4..6] == PadTwo(c.month)
                  && s[6..] == PadTwo(c.day))
  {
    hide PadTwo, PadFour;
  }

  // ---- explicit ranges ----

  datatype RangeError = OutOfRange | Unparseable | Reversed | UnknownPreset

  /** What `datetime.fromisoformat` makes of a text: wall-clock time or an absolute instant. */
  datatype Timestamp = Naive(wall: int) | Aware(instant: int)

  /** A stripped argument text with what the timestamp parser makes of it. */
  datatype Text = Text(raw: string, timestamp: Option<Timestamp>)

  function OrOutOfRange<T>(o: Option<T>): Result<T, RangeError> {
    if o.Some? then Success(o.value) else Failure(OutOfRange)
  }

  function ParseExplicit(text: Text, isEnd: bool): Result<int, RangeError> {
    var d := ParseDate(text.raw);
    if d.Some? then OrOutOfRange(if isEnd then EndOfDayUtc(d.value) else MidnightUtc(d.value))
    else FromTimestamp(text.timestamp)
  }

  /** A naive timestamp is IST wall-clock time. */
  function FromTimestamp(timestamp: Option<Timestamp>): Result<int, RangeError> {
    match timestamp
    case None => Failure(Unparseable)
    case Some(Naive(wall)) => OrOutOfRange(Clip(wall - IST_OFFSET))
    case Some(Aware(instant)) => Success(instant)
  }

  datatype PresetName = Known(preset: Preset) | Unknown

  function Given(text: Option<Text>): bool {
    text.Some? && text.value.raw != ""
  }

  /** An explicit range is labelled with its IST dates, which fails past the last IST day. */
  function Resolve(preset: Option<PresetName>, dateFrom: Option<Text>, dateTo: Option<Text>,
                   now: int, default: PresetName): Result<ResolvedRange, RangeError> {
    if Given(dateFrom) || Given(dateTo) then
      var start :- if Given(dateFrom) then ParseExplicit(dateFrom.value, false) else Success(EARLIEST);
      var end :- if Given(dateTo) then ParseExplicit(dateTo.value, true) else Success(now);
      if end < start then Failure(Reversed)
      else if ToIst(start).None? || ToIst(end).None? then Failure(OutOfRange)
      else Success(ResolvedRange(start, end))
    else
      match preset.GetOr(default)
      case Unknown => Failure(UnknownPreset)
      case Known(p) => OrOutOfRange(ResolvePreset(p, now))
  }

  // ---- what a request for a range gives ----

  /** The range starts no earlier than 2000-01-01, 00:00 UTC, unless a start is given. */
  lemma EarliestIs()
    ensures EARLIEST == DayNumber(Civil(2000, 1, 1)) * DAY
  {
  }

  /** A naive timestamp stands for the instant at which an IST clock shows it, an aware one for itself. */
  lemma TimestampExact(timestamp: Timestamp)
    ensures match timestamp
            case Aware(instant) => FromTimestamp(Some(timestamp)) == Success(instant)
            case Naive(wall) =>
              var r := FromTimestamp(Some(timestamp));
              && (r.Success? ==> r.value + IST_OFFSET == wall)
              && (r.Success? <==> MIN_INSTANT <= wall - IST_OFFSET <= MAX_INSTANT)
              && (r.Failure? ==> r.error == OutOfRange)
  {
  }

  /** The range is what the preset of this name covers, for this "now", or the name is unknown, or the
      preset has no bounds. */
  predicate CoversPreset(name: PresetName, now: int, r: Result<ResolvedRange, RangeError>) {
    match name
    case Unknown => r == Failure(UnknownPreset)
    case Known(p) =>
      if ResolvePreset(p, now).Some? then r == Success(ResolvePreset(p, now).value) else r == Failure(OutOfRange)
  }

  /** Without dates the preset decides, and the default only where no preset is given. */
  lemma PresetDecides(preset: Option<PresetName>, from: Option<Text>, to: Option<Text>, now: int, default: PresetName,
      t: int)
    requires (from.None? || from.value.raw == "") && (to.None? || to.value.raw == "")
    ensures var r := Resolve(preset, from, to, now, default);
            && (forall name :: preset == Some(name) || (preset.None? && default == name) ==> CoversPreset(name, now, r))
            && (forall p :: (preset == Some(Known(p)) || (preset.None? && default == Known(p))) && r.Success? ==>
                  (Within(t, r.value) <==> InPreset(p, now, t)))
  {
    hide ResolvePreset, InPreset, Within;
    forall p | ResolvePreset(p, now).Some? ensures Within(t, ResolvePreset(p, now).value) <==> InPreset(p, now, t) {
      PresetCovers(p, now, t);
    }
  }

  /** With a date the preset and the default count for nothing. */
  lemma DatesDecide(preset: Option<PresetName>, from: Option<Text>, to: Option<Text>, now: int, default: PresetName,
                    other: Option<PresetName>, fallback: PresetName)
    requires (from.Some? && from.value.raw != "") || (to.Some? && to.value.raw != "")
    ensures Resolve(preset, from, to, now, default) == Resolve(other, from, to, now, fallback)
  {
    hide ParseExplicit, ResolvePreset;
  }
}
