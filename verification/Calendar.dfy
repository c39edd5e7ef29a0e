/** Calendar arithmetic of header dates (src/date_time.rs). */
module Calendar {
  import opened Basics

  datatype DateTime = DateTime(year: nat, month: nat, day: nat, hour: nat, minute: nat, second: nat)

  const DAY_SECONDS: nat := 86_400
  const MAX_YEAR: nat := 65_535

  predicate IsLeapYear(year: nat) { (year % 4 == 0 && year % 100 != 0) || year % 400 == 0 }

  function YearDays(year: nat): nat { if IsLeapYear(year) then 366 else 365 }

  function DaysInMonth(year: nat, month: nat): nat {
    match month
    case 2 => if IsLeapYear(year) then 29 else 28
    case _ =>
      if month in {1, 3, 5, 7, 8, 10, 12} then 31
      else if month in {4, 6, 9, 11} then 30 else 0
  }

  /** `HeaderDateTime::validate`; a leap second is allowed. */
  predicate IsValid(d: DateTime) {
    && 0 < d.year <= MAX_YEAR && 1 <= d.month <= 12 && 1 <= d.day <= DaysInMonth(d.year, d.month)
    && d.hour <= 23 && d.minute <= 59 && d.second <= 60
  }

  // ---------------------------------------------------------------- days

  /** `days_before_year`: the closed form, for years from 1 on. */
  function DaysBeforeYear(year: nat): int
    requires year > 0
  {
    var previous := year - 1;
    365 * (year - 1970) + previous / 4 - previous / 100 + previous / 400 - (1969 / 4 - 1969 / 100 + 1969 / 400)
  }

  /** The days of the years `first..until`, counted year by year. */
  function YearsSum(first: nat, until: nat): nat
    decreases until
  {
    if until <= first then 0 else YearsSum(first, until - 1) + YearDays(until - 1)
  }

  lemma FourthStep(year: nat)
    requires year > 0
    ensures year / 4 - (year - 1) / 4 == if year % 4 == 0 then 1 else 0
  {}

  lemma HundredthStep(year: nat)
    requires year > 0
    ensures year / 100 - (year - 1) / 100 == if year % 100 == 0 then 1 else 0
  {}

  lemma FourHundredthStep(year: nat)
    requires year > 0
    ensures year / 400 - (year - 1) / 400 == if year % 400 == 0 then 1 else 0
  {}

  lemma CenturiesAreFourths(year: nat)
    ensures year % 100 == 0 ==> year % 4 == 0
    ensures year % 400 == 0 ==> year % 100 == 0
  {
    if year % 100 == 0 {
      assert year == 4 * (25 * (year / 100));
    }
    if year % 400 == 0 {
      assert year == 100 * (4 * (year / 400));
    }
  }

  lemma LeapDay(year: nat)
    requires year > 0
    ensures (if IsLeapYear(year) then 1 else 0)
         == (year / 4 - (year - 1) / 4) - (year / 100 - (year - 1) / 100) + (year / 400 - (year - 1) / 400)
  {
    FourthStep(year);
    HundredthStep(year);
    FourHundredthStep(year);
    CenturiesAreFourths(year);
  }

  lemma OneMoreYear(year: nat)
    requires year > 0
    ensures DaysBeforeYear(year + 1) == DaysBeforeYear(year) + YearDays(year)
  {
    LeapDay(year);
    hide IsLeapYear;
  }

  /** The closed form counts the years one by one: forward from 1970, and backward for the years
      before it. */
  lemma {:induction false} ClosedFormIsTheSum(first: nat, until: nat)
    requires 0 < first <= until
    ensures DaysBeforeYear(until) == DaysBeforeYear(first) + YearsSum(first, until)
    ensures DaysBeforeYear(1970) == 0
    decreases until
  {
    hide DaysBeforeYear, YearDays;
    EpochIsZero();
    if until > first {
      ClosedFormIsTheSum(first, until - 1);
      OneMoreYear(until - 1);
    }
  }

  function DaysBeforeMonth(year: nat, month: nat): nat {
    if month <= 1 then 0 else DaysBeforeMonth(year, month - 1) + DaysInMonth(year, month - 1)
  }

  method CountDaysBeforeMonth(year: nat, month: nat) returns (days: nat)
    requires month >= 1
    ensures days == DaysBeforeMonth(year, month)
  {
    days := 0;
    for candidate := 1 to month
      invariant days == DaysBeforeMonth(year, candidate)
    {
      days := days + DaysInMonth(year, candidate);
    }
  }

  /** Days from the first of January 1970 to the date. */
  function DayNumber(year: nat, month: nat, day: nat): int
    requires year > 0
  {
    DaysBeforeYear(year) + DaysBeforeMonth(year, month) + day - 1
  }

  function UnixTimestamp(d: DateTime): int
    requires d.year > 0
  {
    DayNumber(d.year, d.month, d.day) * DAY_SECONDS + d.hour * 3600 + d.minute * 60 + d.second
  }

  // ---------------------------------------------------------------- from a timestamp

  /** The year that day `days` after the start of `year` falls in, and its day in that year. */
  function YearOf(year: nat, days: nat): (r: (nat, nat))
    ensures r.0 >= year && r.1 < YearDays(r.0)
    decreases days
  {
    if days < YearDays(year) then (year, days) else YearOf(year + 1, days - YearDays(year))
  }

  /** The month and the day in it; only the twelve months of the year have days to take. */
  function MonthOf(year: nat, month: nat, days: nat): (nat, nat)
    requires 1 <= month <= 13
    decreases 13 - month
  {
    if month == 13 || days < DaysInMonth(year, month) then (month, days)
        else MonthOf(year, month + 1, days - DaysInMonth(year, month))
  }

  function FromTimestamp(timestamp: int): Option<DateTime> {
    if timestamp < 0 then None
    else
      var (year, yearDay) := YearOf(1970, timestamp / DAY_SECONDS);
      var seconds := timestamp % DAY_SECONDS;
      if year > MAX_YEAR then None
      else
        var (month, day) := MonthOf(year, 1, yearDay);
        Some(DateTime(year, month, day + 1, seconds / 3600, seconds % 3600 / 60, seconds % 60))
  }

  /** `from_unix_timestamp`, whose second loop never goes past December. */
  method ReadTimestamp(timestamp: int) returns (r: Option<DateTime>)
    ensures r == FromTimestamp(timestamp)
  {
    hide DaysInMonth, DaysBeforeMonth, IsLeapYear;
    if timestamp < 0 { return None; }
    var remaining, year := timestamp / DAY_SECONDS, 1970;
    while remaining >= YearDays(year)
      invariant 1970 <= year <= MAX_YEAR && remaining >= 0
      invariant YearOf(1970, timestamp / DAY_SECONDS) == YearOf(year, remaining)
      decreases remaining
    {
      remaining := remaining - YearDays(year);
      if year == MAX_YEAR {
        assert YearOf(year + 1, remaining).0 > MAX_YEAR;
        return None;
      }
      year := year + 1;
    }
    var month := 1;
    YearIsTwelveMonths(year);
    JanuaryIsZero(year);
    while remaining >= DaysInMonth(year, month)
      invariant 1 <= month <= 12 && remaining >= 0
      invariant DaysBeforeMonth(year, month) + remaining < YearDays(year)
      invariant MonthOf(year, 1, YearOf(1970, timestamp / DAY_SECONDS).1) == MonthOf(year, month, remaining)
      decreases remaining, 13 - month
    {
      NextMonth(year, month);
      DecemberIsLast(year, month);
      remaining := remaining - DaysInMonth(year, month);
      month := month + 1;
    }
    var seconds := timestamp % DAY_SECONDS;
    return Some(DateTime(year, month, remaining + 1, seconds / 3600, seconds % 3600 / 60, seconds % 60));
  }

  lemma DecemberIsLast(year: nat, month: nat)
    requires 1 <= month <= 12
    ensures month == 12 ==> DaysInMonth(year, month) == 31
  {}

  lemma NextMonth(year: nat, month: nat)
    requires month >= 1
    ensures DaysBeforeMonth(year, month + 1) == DaysBeforeMonth(year, month) + DaysInMonth(year, month)
  {}

  /** The months of a year before its months 3 to 13, the table the counting loop runs through. */
  lemma MonthTable(year: nat)
    ensures var f := DaysInMonth(year, 2);
      && DaysBeforeMonth(year, 1) == 0 && DaysBeforeMonth(year, 2) == 31
      && DaysBeforeMonth(year, 3) == f + 31 && DaysBeforeMonth(year, 4) == f + 62
      && DaysBeforeMonth(year, 5) == f + 92 && DaysBeforeMonth(year, 6) == f + 123
      && DaysBeforeMonth(year, 7) == f + 153 && DaysBeforeMonth(year, 8) == f + 184
      && DaysBeforeMonth(year, 9) == f + 215 && DaysBeforeMonth(year, 10) == f + 245
      && DaysBeforeMonth(year, 11) == f + 276 && DaysBeforeMonth(year, 12) == f + 306
      && DaysBeforeMonth(year, 13) == f + 337
  {
    hide DaysBeforeMonth;
    JanuaryIsZero(year);
    NextMonth(year, 1);
    NextMonth(year, 2);
    NextMonth(year, 3);
    NextMonth(year, 4);
    NextMonth(year, 5);
    NextMonth(year, 6);
    NextMonth(year, 7);
    NextMonth(year, 8);
    NextMonth(year, 9);
    NextMonth(year, 10);
    NextMonth(year, 11);
    NextMonth(year, 12);
  }

  lemma YearIsTwelveMonths(year: nat)
    ensures DaysBeforeMonth(year, 13) == YearDays(year)
    ensures DaysBeforeMonth(year, 12) + 31 == YearDays(year)
  {
    MonthTable(year);
    hide DaysBeforeMonth;
  }

  // ---------------------------------------------------------------- there and back

  lemma {:induction false} YearOfCounts(year: nat, days: nat)
    requires year > 0
    ensures DaysBeforeYear(YearOf(year, days).0) + YearOf(year, days).1 == DaysBeforeYear(year) + days
    decreases days
  {
    if days >= YearDays(year) {
      OneMoreYear(year);
      YearOfCounts(year + 1, days - YearDays(year));
    }
  }

  lemma {:induction false} MonthOfCounts(year: nat, month: nat, days: nat)
    requires 1 <= month <= 12 && DaysBeforeMonth(year, month) + days < YearDays(year)
    ensures var (m, d) := MonthOf(year, month, days);
            month <= m <= 12 && d < DaysInMonth(year, m)
                && DaysBeforeMonth(year, m) + d == DaysBeforeMonth(year, month) + days
    decreases 13 - month
  {
    YearIsTwelveMonths(year);
    if days >= DaysInMonth(year, month) { MonthOfCounts(year, month + 1, days - DaysInMonth(year, month)); }
  }

  /** Every date read from a timestamp is valid, has no leap second, and has that timestamp. */
  lemma TimestampRoundTrip(timestamp: int)
    requires FromTimestamp(timestamp).Some?
    ensures var d := FromTimestamp(timestamp).value;
            IsValid(d) && d.year >= 1970 && d.second <= 59 && UnixTimestamp(d) == timestamp
  {
    TimestampParts(timestamp);
    hide *;
    DateOfParts(timestamp / DAY_SECONDS, timestamp % DAY_SECONDS, FromTimestamp(timestamp).value);
  }

  /** The year, month and day that the two loops make of a day number. */
  predicate DayMade(year: nat, month: nat, day: nat, days: nat) {
    var (y, yearDay) := YearOf(1970, days);
    var (m, monthDay) := MonthOf(y, 1, yearDay);
    year == y && month == m && day == monthDay + 1
  }

  predicate ClockMade(d: DateTime, seconds: nat) {
    d.hour == seconds / 3600 && d.minute == seconds % 3600 / 60 && d.second == seconds % 60
  }

  lemma TimestampParts(timestamp: int)
    requires FromTimestamp(timestamp).Some?
    ensures timestamp >= 0 && timestamp / DAY_SECONDS * DAY_SECONDS + timestamp % DAY_SECONDS == timestamp
    ensures timestamp % DAY_SECONDS < DAY_SECONDS
    ensures FromTimestamp(timestamp).value.year <= MAX_YEAR
    ensures var d := FromTimestamp(timestamp).value;
            DayMade(d.year, d.month, d.day, timestamp / DAY_SECONDS) && ClockMade(d, timestamp % DAY_SECONDS)
  {
    hide YearOf, MonthOf;
  }

  lemma ClockOf(d: DateTime, seconds: nat)
    requires ClockMade(d, seconds) && seconds < DAY_SECONDS
    ensures d.hour <= 23 && d.minute <= 59 && d.second <= 59 && d.hour * 3600 + d.minute * 60 + d.second == seconds
  {
    SecondsOfDay(seconds);
  }

  lemma DayOf(year: nat, month: nat, day: nat, days: nat)
    requires DayMade(year, month, day, days)
    ensures 1970 <= year && 1 <= month <= 12 && 1 <= day <= DaysInMonth(year, month)
    ensures DayNumber(year, month, day) == days
  {
    hide YearOf, MonthOf, DaysBeforeYear, DaysBeforeMonth, DaysInMonth, YearDays, IsLeapYear;
    var yearDay := YearOf(1970, days).1;
    YearOfCounts(1970, days);
    EpochIsZero();
    JanuaryIsZero(year);
    MonthOfCounts(year, 1, yearDay);
    var monthDay: nat := MonthOf(year, 1, yearDay).1;
  }

  lemma DateOfParts(days: nat, seconds: nat, d: DateTime)
    requires DayMade(d.year, d.month, d.day, days) && ClockMade(d, seconds) && seconds < DAY_SECONDS
            && d.year <= MAX_YEAR
    ensures IsValid(d) && d.year >= 1970 && d.second <= 59 && UnixTimestamp(d) == days * DAY_SECONDS + seconds
  {
    hide DayMade, ClockMade, DaysInMonth, DayNumber;
    DayOf(d.year, d.month, d.day, days);
    ClockOf(d, seconds);
  }

  lemma EpochIsZero()
    ensures DaysBeforeYear(1970) == 0
  {}

  lemma JanuaryIsZero(year: nat)
    ensures DaysBeforeMonth(year, 1) == 0
  {}

  lemma SecondsOfDay(seconds: nat)
    requires seconds < DAY_SECONDS
    ensures seconds / 3600 <= 23 && seconds % 3600 / 60 <= 59 && seconds % 60 <= 59
    ensures seconds / 3600 * 3600 + seconds % 3600 / 60 * 60 + seconds % 60 == seconds
  {}

  lemma {:induction false} YearsGrow(a: nat, b: nat)
    requires 0 < a < b
    ensures DaysBeforeYear(a) + YearDays(a) <= DaysBeforeYear(b)
    decreases b
  {
    OneMoreYear(b - 1);
    if b > a + 1 { YearsGrow(a, b - 1); }
  }

  lemma {:induction false} MonthsGrow(year: nat, a: nat, b: nat)
    requires 0 < a < b
    ensures DaysBeforeMonth(year, a) + DaysInMonth(year, a) <= DaysBeforeMonth(year, b)
    decreases b
  {
    if b > a + 1 { MonthsGrow(year, a, b - 1); }
  }

  /** A day number belongs to one date. */
  lemma OneDate(year: nat, month: nat, day: nat, year': nat, month': nat, day': nat)
    requires year > 0 && year' > 0 && 1 <= month <= 12 && 1 <= month' <= 12
    requires 1 <= day <= DaysInMonth(year, month) && 1 <= day' <= DaysInMonth(year', month')
    requires DayNumber(year, month, day) == DayNumber(year', month', day')
    ensures year == year' && month == month' && day == day'
  {
    DayInYear(year, month, day);
    DayInYear(year', month', day');
    hide DaysBeforeYear, DaysBeforeMonth, DaysInMonth, YearDays;
    if year < year' { YearsGrow(year, year'); } else if year' < year { YearsGrow(year', year); }
    if month < month' { MonthsGrow(year, month, month'); } else if month' < month { MonthsGrow(year, month', month); }
  }

  lemma DayInYear(year: nat, month: nat, day: nat)
    requires 1 <= month <= 12 && 1 <= day <= DaysInMonth(year, month)
    ensures DaysBeforeMonth(year, month) + day <= YearDays(year)
  {
    YearIsTwelveMonths(year);
    hide YearDays;
    MonthsGrow(year, month, 13);
  }

  /** A valid date comes back from its timestamp exactly when it is from 1970 on and not in a
      leap second. */
  lemma DateRoundTripsExactlyWhen(d: DateTime)
    requires IsValid(d)
    ensures FromTimestamp(UnixTimestamp(d)) == Some(d) <==> d.year >= 1970 && d.second <= 59
  {
    hide FromTimestamp, UnixTimestamp;
    if FromTimestamp(UnixTimestamp(d)).Some? { TimestampRoundTrip(UnixTimestamp(d)); }
    if d.year >= 1970 && d.second <= 59 {
      DateIsRead(d);
      TimestampRoundTrip(UnixTimestamp(d));
      SameTimestamp(d, FromTimestamp(UnixTimestamp(d)).value);
    }
  }

  /** Dates with the same timestamp and no leap second are the same. */
  lemma SameTimestamp(d: DateTime, e: DateTime)
    requires IsValid(d) && IsValid(e) && d.second <= 59 && e.second <= 59 && UnixTimestamp(d) == UnixTimestamp(e)
    ensures d == e
  {
    hide DayNumber, DaysInMonth;
    var x, y := DayNumber(d.year, d.month, d.day), DayNumber(e.year, e.month, e.day);
    SameDay(x, d.hour * 3600 + d.minute * 60 + d.second, y, e.hour * 3600 + e.minute * 60 + e.second);
    OneDate(d.year, d.month, d.day, e.year, e.month, e.day);
  }

  lemma SameDay(x: int, a: nat, y: int, b: nat)
    requires a < DAY_SECONDS && b < DAY_SECONDS && x * DAY_SECONDS + a == y * DAY_SECONDS + b
    ensures x == y && a == b
  {}

  lemma DateIsRead(d: DateTime)
    requires IsValid(d) && d.year >= 1970 && d.second <= 59
    ensures FromTimestamp(UnixTimestamp(d)).Some?
  {
    var days := DayNumber(d.year, d.month, d.day);
    DayInYear(d.year, d.month, d.day);
    ClosedFormIsTheSum(1970, d.year);
    SameDay(days, d.hour * 3600 + d.minute * 60 + d.second, UnixTimestamp(d) / DAY_SECONDS,
            UnixTimestamp(d) % DAY_SECONDS);
    YearOfCounts(1970, days);
    var year := YearOf(1970, days).0;
    hide DaysBeforeYear, DaysBeforeMonth, YearOf, YearDays, YearsSum;
    EpochIsZero();
    if year > MAX_YEAR { YearsGrow(d.year, year); }
  }

  // ---------------------------------------------------------------- weekdays

  /** `weekday_index`: Zeller's rule with Sunday as 0; January and February count as months 13
      and 14 of the year before. */
  function WeekdayIndex(year: nat, month: nat, day: nat): nat
    requires year > 0
  {
    var m := if month < 3 then month + 12 else month;
    var y := if month < 3 then year - 1 else year;
    var h := (day + 13 * (m + 1) / 5 + y % 100 + y % 100 / 4 + y / 100 / 4 + 5 * (y / 100)) % 7;
    (h + 6) % 7
  }

  lemma ModShift(a: int, b: int, q: int)
    requires a == b + 7 * q
    ensures a % 7 == b % 7
  {}

  lemma ModOfSum(a: nat)
    ensures (a % 7 + 6) % 7 == (a + 6) % 7
  {}

  /** The leap days of the years up to `y`. */
  function LeapDays(y: nat): int { y / 4 - y / 100 + y / 400 }

  /** The century terms of Zeller's rule count `y` years and their leap days, up to weeks. */
  lemma CenturyParts(y: nat)
    ensures y % 100 + y % 100 / 4 + y / 100 / 4 + 5 * (y / 100) == y + LeapDays(y) - 7 * (17 * (y / 100))
  {
    assert y / 4 == 25 * (y / 100) + y % 100 / 4;
    assert y / 400 == y / 100 / 4;
  }

  lemma February(year: nat)
    ensures DaysInMonth(year, 2) == 28 + if IsLeapYear(year) then 1 else 0
  {}

  /** Days before a month from March on, counted as if the leap day closed the year before. */
  lemma MonthParts(year: nat, month: nat)
    requires 1 <= month <= 12
    ensures var leap := if IsLeapYear(year) then 1 else 0;
            var zeller := 13 * ((if month < 3 then month + 12 else month) + 1) / 5;
            if month < 3 then (DaysBeforeMonth(year, month) + 1 - zeller) % 7 == 0
            else (DaysBeforeMonth(year, month) - leap - zeller) % 7 == 0
  {
    MonthTable(year);
    February(year);
    hide DaysBeforeMonth, DaysInMonth, IsLeapYear;
  }

  /** The number that Zeller's rule reduces, by its parts. */
  lemma WeekdayOfParts(year: nat, month: nat, day: nat, y: nat, zeller: nat)
    requires year > 0 && y == (if month < 3 then year - 1 else year)
    requires zeller == 13 * ((if month < 3 then month + 12 else month) + 1) / 5
    ensures day + zeller + y + LeapDays(y) - 7 * (17 * (y / 100)) >= 0
    ensures WeekdayIndex(year, month, day) == (day + zeller + y + LeapDays(y) - 7 * (17 * (y / 100)) + 6) % 7
  {
    CenturyParts(y);
    hide LeapDays;
    ModOfSum(day + zeller + (y % 100 + y % 100 / 4 + y / 100 / 4 + 5 * (y / 100)));
  }

  lemma DayNumberOfParts(year: nat, month: nat, day: nat)
    requires year > 0
    ensures DayNumber(year, month, day)
            == 365 * (year - 1970) + LeapDays(year - 1) - 478 + DaysBeforeMonth(year, month) + day
  {
    hide DaysBeforeMonth;
  }

  lemma LeapDaysStep(year: nat)
    requires year > 0
    ensures LeapDays(year) == LeapDays(year - 1) + if IsLeapYear(year) then 1 else 0
  {
    LeapDay(year);
    hide IsLeapYear;
  }

  /** Zeller's rule gives the weekday that counting days from Thursday, 1 January 1970, gives. */
  lemma WeekdayIsDayCount(d: DateTime)
    requires IsValid(d)
    ensures WeekdayIndex(d.year, d.month, d.day) == (DayNumber(d.year, d.month, d.day) + 4) % 7
  {
    var y := if d.month < 3 then d.year - 1 else d.year;
    var zeller := 13 * ((if d.month < 3 then d.month + 12 else d.month) + 1) / 5;
    var before := DaysBeforeMonth(d.year, d.month);
    var leap := if IsLeapYear(d.year) then 1 else 0;
    MonthParts(d.year, d.month);
    hide *;
    WeekdayOfParts(d.year, d.month, d.day, y, zeller);
    DayNumberOfParts(d.year, d.month, d.day);
    LeapDaysStep(d.year);
    var sum := d.day + zeller + y + LeapDays(y) - 7 * (17 * (y / 100)) + 6;
    if d.month < 3 {
      var q := (before + 1 - zeller) / 7;
      ModShift(DayNumber(d.year, d.month, d.day) + 4, sum, 52 * y - 102_738 + q + 17 * (y / 100));
    } else {
      var q := (before - leap - zeller) / 7;
      ModShift(DayNumber(d.year, d.month, d.day) + 4, sum, 52 * y - 102_790 + q + 17 * (y / 100));
    }
  }
}
