// Points in time (UTC, nanosecond resolution), the proleptic Gregorian
// calendar, and the chrono/time formats the program prints and parses.
module UtcTime {
  import opened Strings
  import opened Wrappers

  /** Nanoseconds since 1970-01-01T00:00:00Z. */
  type Time = int

  const NanosPerSecond: int := 1_000_000_000
  const SecondsPerDay: int := 86400
  const NanosPerDay: int := 86_400_000_000_000

  /** A span of `n` whole days, in nanoseconds (`Duration::days`). */
  function DaysSpan(n: int): int { n * NanosPerDay }

  /** `from_unix_timestamp`: a whole number of seconds since the epoch. */
  function FromUnixSeconds(s: int): Time { s * NanosPerSecond }

  /** Whole seconds since the epoch, rounded down. */
  function UnixSeconds(t: Time): int { t / NanosPerSecond }

  /** The day number since the epoch, rounded down. */
  function Days(t: Time): int { UnixSeconds(t) / SecondsPerDay }

  function SecondOfDay(t: Time): (r: nat)
    ensures r < SecondsPerDay
  {
    UnixSeconds(t) % SecondsPerDay
  }

  function Hour(t: Time): (r: nat) ensures r < 24 { SecondOfDay(t) / 3600 }
  function Minute(t: Time): (r: nat) ensures r < 60 { SecondOfDay(t) % 3600 / 60 }
  function Second(t: Time): (r: nat) ensures r < 60 { SecondOfDay(t) % 60 }
  function Nanosecond(t: Time): (r: nat) ensures r < NanosPerSecond { t % NanosPerSecond }
  function Microsecond(t: Time): (r: nat) ensures r < 1_000_000 { Nanosecond(t) / 1000 }

  /** A time of day on day number `days`. */
  function At(days: int, hour: nat, minute: nat, second: nat): Time
  {
    FromUnixSeconds(days * SecondsPerDay + hour * 3600 + minute * 60 + second)
  }

  lemma AtFields(days: int, hour: nat, minute: nat, second: nat)
    requires hour < 24 && minute < 60 && second < 60
    ensures var t := At(days, hour, minute, second);
            Days(t) == days && Hour(t) == hour && Minute(t) == minute && Second(t) == second && Nanosecond(t) == 0
  {
    var s := days * SecondsPerDay + hour * 3600 + minute * 60 + second;
    assert UnixSeconds(At(days, hour, minute, second)) == s;
    assert s / SecondsPerDay == days && s % SecondsPerDay == hour * 3600 + minute * 60 + second;
  }

  // ---- calendar ------------------------------------------------------------

  datatype Date = Date(year: int, month: int, day: int)

  predicate IsLeap(y: int) { y % 4 == 0 && (y % 100 != 0 || y % 400 == 0) }

  function DaysInMonth(y: int, m: int): int
  {
    if m == 2 then (if IsLeap(y) then 29 else 28)
    else if m == 4 || m == 6 || m == 9 || m == 11 then 30
    else 31
  }

  predicate ValidDate(d: Date) { 1 <= d.month <= 12 && 1 <= d.day <= DaysInMonth(d.year, d.month) }

  /** Day number of a calendar date (H. Hinnant's `days_from_civil`). */
  function DaysFromCivil(d: Date): int
  {
    var y := if d.month <= 2 then d.year - 1 else d.year;
    var era := y / 400;
    var yoe := y - era * 400;
    var mp := if d.month > 2 then d.month - 3 else d.month + 9;
    var doy := (153 * mp + 2) / 5 + d.day - 1;
    var doe := yoe * 365 + yoe / 4 - yoe / 100 + doy;
    era * 146097 + doe - 719468
  }

  /** Calendar date of a day number (H. Hinnant's `civil_from_days`). */
  function CivilFromDays(z: int): (d: Date)
    ensures 1 <= d.month <= 12 && 1 <= d.day <= 31
  {
    var z' := z + 719468;
    var era := z' / 146097;
    CivilOfEra(era, z' - era * 146097)
  }

  /** The date `doe` days after March 1st of the first year of a 400-year era. */
  function CivilOfEra(era: int, doe: int): (d: Date)
    requires 0 <= doe < 146097
    ensures 1 <= d.month <= 12 && 1 <= d.day <= 31
  {
    var yoe := (doe - doe / 1460 + doe / 36524 - doe / 146096) / 365;
    var y := yoe + era * 400;
    var doy := doe - (365 * yoe + yoe / 4 - yoe / 100);
    DayOfYearBounds(doe, yoe);
    var mp := (5 * doy + 2) / 153;
    var day := doy - (153 * mp + 2) / 5 + 1;
    var m := if mp < 10 then mp + 3 else mp - 9;
    Date(if m <= 2 then y + 1 else y, m, day)
  }

  /** The year of the era and the day of that year stay in range. */
  predicate YearOfEraInRange(doe: int)
  {
    var yoe := (doe - doe / 1460 + doe / 36524 - doe / 146096) / 365;
    0 <= yoe <= 399 && 0 <= doe - (365 * yoe + yoe / 4 - yoe / 100) <= 365
  }

  lemma DayOfYearBounds(doe: int, yoe: int)
    requires 0 <= doe < 146097
    requires yoe == (doe - doe / 1460 + doe / 36524 - doe / 146096) / 365
    ensures 0 <= yoe <= 399
    ensures 0 <= doe - (365 * yoe + yoe / 4 - yoe / 100) <= 365
  {
    if doe < 36524 {
      FirstCentury(doe);
    } else if doe < 2 * 36524 {
      SecondCentury(doe);
    } else if doe < 3 * 36524 {
      ThirdCentury(doe);
    } else if doe < 146096 {
      FourthCentury(doe);
    }
    assert YearOfEraInRange(doe);
  }

  lemma FirstCentury(doe: int)
    requires 0 <= doe < 36524
    ensures YearOfEraInRange(doe)
  {
    assert doe / 36524 == 0 && doe / 146096 == 0;
  }

  lemma SecondCentury(doe: int)
    requires 36524 <= doe < 2 * 36524
    ensures YearOfEraInRange(doe)
  {
    assert doe / 36524 == 1 && doe / 146096 == 0;
  }

  lemma ThirdCentury(doe: int)
    requires 2 * 36524 <= doe < 3 * 36524
    ensures YearOfEraInRange(doe)
  {
    assert doe / 36524 == 2 && doe / 146096 == 0;
  }

  lemma FourthCentury(doe: int)
    requires 3 * 36524 <= doe < 146096
    ensures YearOfEraInRange(doe)
  {
    assert doe / 36524 == 3 && doe / 146096 == 0;
    if doe < 3 * 36524 + 18262 {
      FourthCenturyLow(doe);
    } else {
      FourthCenturyHigh(doe);
    }
  }

  lemma FourthCenturyLow(doe: int)
    requires 3 * 36524 <= doe < 3 * 36524 + 18262
    ensures 0 <= (doe - doe / 1460 + 3) / 365 <= 399
    ensures var yoe := (doe - doe / 1460 + 3) / 365;
      0 <= doe - (365 * yoe + yoe / 4 - yoe / 100) <= 365
  {
  }

  lemma FourthCenturyHigh(doe: int)
    requires 3 * 36524 + 18262 <= doe < 146096
    ensures 0 <= (doe - doe / 1460 + 3) / 365 <= 399
    ensures var yoe := (doe - doe / 1460 + 3) / 365;
      0 <= doe - (365 * yoe + yoe / 4 - yoe / 100) <= 365
  {
  }

  /** Day numbers go to calendar dates and back unchanged. */
  lemma DaysFromCivilInverse(z: int)
    ensures DaysFromCivil(CivilFromDays(z)) == z
  {
    var z' := z + 719468;
    var era := z' / 146097;
    CivilOfEraInverse(era, z' - era * 146097);
  }

  lemma CivilOfEraInverse(era: int, doe: int)
    requires 0 <= doe < 146097
    ensures DaysFromCivil(CivilOfEra(era, doe)) == era * 146097 + doe - 719468
  {
    var yoe := (doe - doe / 1460 + doe / 36524 - doe / 146096) / 365;
    var doy := doe - (365 * yoe + yoe / 4 - yoe / 100);
    DayOfYearBounds(doe, yoe);
    var mp := (5 * doy + 2) / 153;
    MonthIndexBounds(doy);
    var m := if mp < 10 then mp + 3 else mp - 9;
    var y := yoe + era * 400;
    assert CivilOfEra(era, doe) == Date(if m <= 2 then y + 1 else y, m, doy - (153 * mp + 2) / 5 + 1);
    EraOfYear(y, era, yoe);
  }

  lemma MonthIndexBounds(doy: int)
    requires 0 <= doy <= 365
    ensures 0 <= (5 * doy + 2) / 153 <= 11
  {
  }

  lemma EraOfYear(y: int, era: int, yoe: int)
    requires 0 <= yoe < 400 && y == yoe + era * 400
    ensures y / 400 == era
  {
    DivModUnique(y, era, yoe, 400);
  }

  /** The UTC calendar date of a point in time. */
  function DateOf(t: Time): Date { CivilFromDays(Days(t)) }

  // ---- formats -------------------------------------------------------------

  /** chrono's `%Y`: four digits, with a sign outside the years 0 to 9999. */
  function FormatYear(y: int): string
  {
    if 0 <= y <= 9999 then ZeroPad(y, 4) else if y > 9999 then "+" + NatToString(y) else "-" + ZeroPad(-y, 4)
  }

  /** `%F`, i.e. `%Y-%m-%d`. */
  function FormatDate(d: Date): string
    requires 1 <= d.month <= 12 && 1 <= d.day <= 31
  {
    FormatYear(d.year) + "-" + ZeroPad(d.month, 2) + "-" + ZeroPad(d.day, 2)
  }

  /** `%F` of the date a point in time falls on. */
  function FormatDay(t: Time): string { FormatDate(DateOf(t)) }

  /** `%H:%M:%S`. */
  function FormatClock(t: Time): string
  {
    ZeroPad(Hour(t), 2) + ":" + ZeroPad(Minute(t), 2) + ":" + ZeroPad(Second(t), 2)
  }

  /** `%FT%T.%fZ`: date, time of day and nine digits of nanoseconds. */
  function FormatDateTimeNanos(t: Time): string
  {
    FormatDay(t) + "T" + FormatClock(t) + "." + ZeroPad(Nanosecond(t), 9) + "Z"
  }

  /** `%FT%H:%M:%SZ`. */
  function FormatDateTimeSeconds(t: Time): string
  {
    FormatDay(t) + "T" + FormatClock(t) + "Z"
  }

  /** The seconds format looks only at the whole second. */
  lemma FormatSameSecond(a: Time, b: Time)
    requires UnixSeconds(a) == UnixSeconds(b)
    ensures FormatDateTimeSeconds(a) == FormatDateTimeSeconds(b)
  {
    assert Days(a) == Days(b) && SecondOfDay(a) == SecondOfDay(b);
    assert FormatDay(a) == FormatDay(b) && FormatClock(a) == FormatClock(b);
  }

  /** `%F` parsed in its four-two-two digit form; impossible dates are refused. */
  function ParseDate(s: string): Option<Date>
  {
    if |s| == 10 && s[4] == '-' && s[7] == '-' && AllDigits(s[..4]) && AllDigits(s[5..7]) && AllDigits(s[8..]) then
      var d := Date(DigitsValue(s[..4]), DigitsValue(s[5..7]), DigitsValue(s[8..]));
      if ValidDate(d) then Some(d) else None
    else None
  }

  /** `parse_option_expiry`: a `%F` date taken as 21:00 UTC of that day. */
  function ParseOptionExpiry(s: string): (r: Option<Time>)
    ensures r.Some? ==> Hour(r.value) == 21 && Minute(r.value) == 0 && Second(r.value) == 0
  {
    match ParseDate(s)
    case None => None
    case Some(d) =>
      AtFields(DaysFromCivil(d), 21, 0, 0);
      Some(At(DaysFromCivil(d), 21, 0, 0))
  }

  /** Every `%F` date of the years 0 to 9999 is read as 21:00 UTC of its day. */
  lemma ParseOptionExpiryOfFormat(d: Date)
    requires ValidDate(d) && 0 <= d.year <= 9999
    ensures ParseOptionExpiry(FormatDate(d)) == Some(At(DaysFromCivil(d), 21, 0, 0))
    ensures Days(At(DaysFromCivil(d), 21, 0, 0)) == DaysFromCivil(d)
  {
    ParseFormatDate(d);
    AtFields(DaysFromCivil(d), 21, 0, 0);
  }

  /** The `%F` text of any time of the years 0 to 9999 is ten ASCII characters. */
  lemma FormatDayShape(t: Time)
    requires 0 <= DateOf(t).year <= 9999
    ensures |FormatDay(t)| == 10 && IsAscii(FormatDay(t))
  {
    var d := DateOf(t);
    FormatDateShape(d);
    var s := FormatDay(t);
    assert s == s[..4] + "-" + s[5..7] + "-" + s[8..];
    DigitsAscii(s[..4]);
    DigitsAscii(s[5..7]);
    DigitsAscii(s[8..]);
  }

  lemma FormatDateShape(d: Date)
    requires 1 <= d.month <= 12 && 1 <= d.day <= 31 && 0 <= d.year <= 9999
    ensures var s := FormatDate(d);
            |s| == 10 && s[..4] == ZeroPad(d.year, 4) && s[4] == '-' && s[5..7] == ZeroPad(d.month, 2)
            && s[7] == '-' && s[8..] == ZeroPad(d.day, 2)
  {
    assert |NatToString(d.year)| <= 4 by { SmallNatLength(d.year, 4); }
    assert |NatToString(d.month)| <= 2 by { SmallNatLength(d.month, 2); }
    assert |NatToString(d.day)| <= 2 by { SmallNatLength(d.day, 2); }
  }

  lemma {:induction false} SmallNatLength(n: nat, w: nat)
    requires w >= 1 && n < Pow10(w)
    ensures |NatToString(n)| <= w
  {
    if n >= 10 {
      assert Pow10(1) == 10;
      assert w >= 2;
      assert n / 10 < Pow10(w - 1);
      SmallNatLength(n / 10, w - 1);
      assert NatToString(n) == NatToString(n / 10) + [DigitChar(n % 10)];
    }
  }

  /** A valid date of the years 0 to 9999 reads back from its `%F` text. */
  lemma ParseFormatDate(d: Date)
    requires ValidDate(d) && 0 <= d.year <= 9999
    ensures ParseDate(FormatDate(d)) == Some(d)
  {
    FormatDateShape(d);
    ZeroPadInverse(d.year, 4);
    ZeroPadInverse(d.month, 2);
    ZeroPadInverse(d.day, 2);
  }
}
