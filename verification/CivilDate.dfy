/** The build day as a proleptic Gregorian date. */
module CivilDate {

  datatype Date = Date(year: int, month: int, day: int)

  // ----- the calendar: RFC 3339, section 5.7 and Appendix C

  predicate IsLeap(y: int) {
    y % 4 == 0 && (y % 100 != 0 || y % 400 == 0)
  }

  function DaysInMonth(y: int, m: int): int {
    if m == 2 then (if IsLeap(y) then 29 else 28)
    else if m == 4 || m == 6 || m == 9 || m == 11 then 30
    else 31
  }

  predicate ValidDate(d: Date) {
    1 <= d.month <= 12 && 1 <= d.day <= DaysInMonth(d.year, d.month)
  }

  /** The day after, by the calendar alone. */
  function NextDay(d: Date): Date {
    if d.day < DaysInMonth(d.year, d.month) then Date(d.year, d.month, d.day + 1)
    else if d.month < 12 then Date(d.year, d.month + 1, 1)
    else Date(d.year + 1, 1, 1)
  }

  /** Days from 0001-01-01 to January 1 of year y. */
  function DaysBeforeYear(y: int): int {
    365 * (y - 1) + (y - 1) / 4 - (y - 1) / 100 + (y - 1) / 400
  }

  function DaysBeforeMonth(y: int, m: int): int
    decreases m
  {
    if m <= 1 then 0 else DaysBeforeMonth(y, m - 1) + DaysInMonth(y, m - 1)
  }

  const EPOCH: int := 719162  // 0001-01-01 to 1970-01-01

  /** Days from 1970-01-01. */
  function DayNumber(d: Date): int {
    DaysBeforeYear(d.year) + DaysBeforeMonth(d.year, d.month) + d.day - 1 - EPOCH
  }

  lemma LeapSteps(y: int)
    ensures y / 4 - (y - 1) / 4 == if y % 4 == 0 then 1 else 0
    ensures y / 100 - (y - 1) / 100 == if y % 100 == 0 then 1 else 0
    ensures y / 400 - (y - 1) / 400 == if y % 400 == 0 then 1 else 0
  {
  }

  lemma CenturiesDivide(y: int)
    ensures (y % 400 == 0 ==> y % 100 == 0) && (y % 100 == 0 ==> y % 4 == 0)
  {
  }

  /** A year is 365 days, or 366 in a leap year. */
  lemma YearLength(y: int)
    ensures DaysBeforeYear(y + 1) == DaysBeforeYear(y) + if IsLeap(y) then 366 else 365
  {
    LeapSteps(y);
    CenturiesDivide(y);
  }

  lemma MonthStarts(y: int)
    ensures var leap := if IsLeap(y) then 1 else 0;
      && DaysBeforeMonth(y, 1) == 0 && DaysBeforeMonth(y, 2) == 31
      && DaysBeforeMonth(y, 3) == 59 + leap && DaysBeforeMonth(y, 4) == 90 + leap
      && DaysBeforeMonth(y, 5) == 120 + leap && DaysBeforeMonth(y, 6) == 151 + leap
      && DaysBeforeMonth(y, 7) == 181 + leap && DaysBeforeMonth(y, 8) == 212 + leap
      && DaysBeforeMonth(y, 9) == 243 + leap && DaysBeforeMonth(y, 10) == 273 + leap
      && DaysBeforeMonth(y, 11) == 304 + leap && DaysBeforeMonth(y, 12) == 334 + leap
      && DaysBeforeMonth(y, 13) == 365 + leap
  {
    hide IsLeap;
    assert DaysBeforeMonth(y, 3) == DaysBeforeMonth(y, 2) + DaysInMonth(y, 2);
    assert DaysBeforeMonth(y, 5) == DaysBeforeMonth(y, 4) + 30;
    assert DaysBeforeMonth(y, 7) == DaysBeforeMonth(y, 6) + 30;
    assert DaysBeforeMonth(y, 9) == DaysBeforeMonth(y, 8) + 31;
    assert DaysBeforeMonth(y, 11) == DaysBeforeMonth(y, 10) + 31;
  }

  // ----- civil_from_days

  /** Days from March 1 of year 0 of a 400-year era to March 1 of its year n. */
  function MarchStart(n: int): int {
    365 * n + n / 4 - n / 100
  }

  function YearOfEra(doe: int): int {
    (doe - doe / 1460 + doe / 36524 - doe / 146096) / 365
  }

  /** Month and day of the year that begins on March 1 of year y. */
  function OfMarchYear(y: int, doy: int): Date {
    var mp := (5 * doy + 2) / 153;
    var d := doy - (153 * mp + 2) / 5 + 1;
    var m := if mp < 10 then mp + 3 else mp - 9;
    Date(if m <= 2 then y + 1 else y, m, d)
  }

  function CivilFromDays(days: int): Date {
    var z := days + 719468;
    var era := z / 146097;
    var doe := z % 146097;
    var yoe := YearOfEra(doe);
    var y := yoe + era * 400;
    var doy := doe - MarchStart(yoe);
    OfMarchYear(y, doy)
  }

  /** A day of the era by century, four-year cycle, year of the cycle and day of the year. */
  ghost predicate EraDay(doe: int, c: int, q: int, t: int, u: int) {
    && 0 <= c <= 3 && 0 <= q <= 24 && 0 <= t <= 3 && 0 <= u
    && doe == 36524 * c + 1461 * q + 365 * t + u
    && u <= (if t == 3 && (q < 24 || c == 3) then 365 else 364)
  }

  lemma EraDayOf(doe: int) returns (c: int, q: int, t: int, u: int)
    requires 0 <= doe < 146097
    ensures EraDay(doe, c, q, t, u)
  {
    c := if doe < 3 * 36524 then doe / 36524 else 3;
    var r := doe - 36524 * c;
    q := r / 1461;
    var s := r % 1461;
    t := if s < 3 * 365 then s / 365 else 3;
    u := s - 365 * t;
  }

  lemma YearOfEraDay(doe: int, c: int, q: int, t: int, u: int)
    requires EraDay(doe, c, q, t, u)
    ensures YearOfEra(doe) == 100 * c + 4 * q + t
  {
    var e := if 24 * c + q + 365 * t + u >= 1460 then 1 else 0;
    assert doe / 1460 == 25 * c + q + e;
    assert doe / 36524 - doe / 146096 == c;
    assert doe - doe / 1460 + c == 365 * (100 * c + 4 * q + t) + (u - e);
  }

  lemma MarchStartOf(c: int, q: int, t: int)
    requires 0 <= c <= 3 && 0 <= q <= 24 && 0 <= t <= 3
    ensures MarchStart(100 * c + 4 * q + t) == 36524 * c + 1461 * q + 365 * t
  {
    assert (100 * c + 4 * q + t) / 4 == 25 * c + q;
    assert (100 * c + 4 * q + t) / 100 == c;
  }

  /** The division formula finds the year of the era the day falls in. */
  lemma YearOfEraFound(doe: int)
    requires 0 <= doe < 146097
    ensures var n := YearOfEra(doe);
      0 <= n < 400 && MarchStart(n) <= doe < MarchStart(n + 1) + if n == 399 then 1 else 0
  {
    var c, q, t, u := EraDayOf(doe);
    YearOfEraDay(doe, c, q, t, u);
    MarchStartOf(c, q, t);
    if t < 3 {
      MarchStartOf(c, q, t + 1);
    } else if q < 24 {
      MarchStartOf(c, q + 1, 0);
    } else if c < 3 {
      MarchStartOf(c + 1, 0, 0);
    }
  }

  /** The day number of March 1, by the era. */
  lemma MarchFirst(era: int, n: int)
    requires 0 <= n < 400
    ensures DaysBeforeYear(n + 400 * era + 1) == 146097 * era + MarchStart(n)
    ensures DaysBeforeYear(n + 400 * era + 2) == 146097 * era + MarchStart(n + 1) + if n == 399 then 1 else 0
  {
    var y := n + 400 * era;
    assert y / 4 == n / 4 + 100 * era && (y + 1) / 4 == (n + 1) / 4 + 100 * era;
    assert y / 100 == n / 100 + 4 * era && (y + 1) / 100 == (n + 1) / 100 + 4 * era;
    assert y / 400 == era && (y + 1) / 400 == era + if n == 399 then 1 else 0;
  }

  lemma MonthAndDay(y: int, doy: int)
    requires 0 <= doy < 365 + (if IsLeap(y + 1) then 1 else 0)
    ensures var date := OfMarchYear(y, doy);
      ValidDate(date) &&
      (if date.month <= 2
       then date.year == y + 1 && DaysBeforeMonth(y + 1, date.month) + date.day - 1 == doy - 306
       else date.year == y && DaysBeforeMonth(y, date.month) + date.day - 1 == doy + 59 + if IsLeap(y) then 1 else 0)
  {
    hide IsLeap;
    MonthStarts(y);
    MonthStarts(y + 1);
    hide DaysBeforeMonth;
    var mp := (5 * doy + 2) / 153;
    assert 0 <= mp <= 11;
    if
    case mp == 0 =>
    case mp == 1 =>
    case mp == 2 =>
    case mp == 3 =>
    case mp == 4 =>
    case mp == 5 =>
    case mp == 6 =>
    case mp == 7 =>
    case mp == 8 =>
    case mp == 9 =>
    case mp == 10 =>
    case mp == 11 =>
  }

  /** The year from March and the day in it that a day number falls in. */
  lemma MarchYearFound(days: int) returns (y: int, doy: int)
    ensures CivilFromDays(days) == OfMarchYear(y, doy)
    ensures 0 <= doy < 365 + (if IsLeap(y + 1) then 1 else 0)
    ensures days + 719468 == DaysBeforeYear(y + 1) + doy
  {
    hide OfMarchYear, IsLeap, DaysBeforeYear, MarchStart, YearOfEra;
    var z := days + 719468;
    var era, doe := z / 146097, z % 146097;
    YearOfEraFound(doe);
    var n := YearOfEra(doe);
    y, doy := n + era * 400, doe - MarchStart(n);
    MarchFirst(era, n);
    YearLength(y + 1);
  }

  /** Every integer day gives a date of the calendar, whose day number is that day. */
  lemma RoundTrip(days: int)
    ensures ValidDate(CivilFromDays(days)) && DayNumber(CivilFromDays(days)) == days
  {
    hide IsLeap, DaysBeforeYear, CivilFromDays, OfMarchYear, ValidDate;
    var y, doy := MarchYearFound(days);
    MonthAndDay(y, doy);
    YearLength(y);
  }

  /** Day numbers follow the calendar: the day after is one more. */
  lemma NextDayNumber(d: Date)
    requires ValidDate(d)
    ensures ValidDate(NextDay(d)) && DayNumber(NextDay(d)) == DayNumber(d) + 1
  {
    hide IsLeap, DaysBeforeYear;
    YearLength(d.year);
    MonthStarts(d.year);
  }

  lemma {:induction false} LaterMonth(y: int, m: int, m': int)
    requires 1 <= m < m' <= 13
    ensures DaysBeforeMonth(y, m) + DaysInMonth(y, m) <= DaysBeforeMonth(y, m')
    decreases m'
  {
    if m + 1 < m' {
      LaterMonth(y, m, m' - 1);
    }
  }

  lemma {:induction false} LaterYear(y: int, y': int)
    requires y < y'
    ensures DaysBeforeYear(y) + (if IsLeap(y) then 366 else 365) <= DaysBeforeYear(y')
    decreases y' - y
  {
    hide IsLeap, DaysBeforeYear;
    YearLength(y);
    if y + 1 < y' {
      LaterYear(y + 1, y');
    }
  }

  predicate Before(a: Date, b: Date) {
    a.year < b.year || (a.year == b.year && (a.month < b.month || (a.month == b.month && a.day < b.day)))
  }

  /** An earlier date has a smaller day number. */
  lemma Monotone(a: Date, b: Date)
    requires ValidDate(a) && ValidDate(b) && Before(a, b)
    ensures DayNumber(a) < DayNumber(b)
  {
    hide IsLeap, DaysBeforeYear;
    if a.year < b.year {
      LaterYear(a.year, b.year);
      LaterMonth(a.year, a.month, 13);
      MonthStarts(a.year);
      MonthStarts(b.year);
      if b.month > 1 {
        LaterMonth(b.year, 1, b.month);
      }
    } else if a.month < b.month {
      LaterMonth(a.year, a.month, b.month);
    }
  }

  lemma SameDay(a: Date, b: Date)
    requires ValidDate(a) && ValidDate(b) && DayNumber(a) == DayNumber(b)
    ensures a == b
  {
    hide DayNumber, ValidDate;
    if Before(a, b) {
      Monotone(a, b);
    } else if Before(b, a) {
      Monotone(b, a);
    }
  }

  /** Every date of the calendar is the date of its day number. */
  lemma DateOfDayNumber(d: Date)
    requires ValidDate(d)
    ensures CivilFromDays(DayNumber(d)) == d
  {
    hide CivilFromDays, DayNumber, ValidDate;
    RoundTrip(DayNumber(d));
    SameDay(CivilFromDays(DayNumber(d)), d);
  }

  /** Consecutive days are consecutive dates. */
  lemma ConsecutiveDays(days: int)
    ensures CivilFromDays(days + 1) == NextDay(CivilFromDays(days))
  {
    hide CivilFromDays, DayNumber, ValidDate, NextDay;
    RoundTrip(days);
    RoundTrip(days + 1);
    NextDayNumber(CivilFromDays(days));
    SameDay(CivilFromDays(days + 1), NextDay(CivilFromDays(days)));
  }

  // ----- the day of a clock reading

  const SECONDS_PER_DAY: int := 86400

  function BuildDate(seconds: int): Date {
    CivilFromDays(seconds / SECONDS_PER_DAY)
  }

  /** Before and after 1970 alike, a second belongs to the day whose first second it follows. */
  lemma BuildDateCoversTheDay(seconds: int)
    ensures var midnight := 24 * 60 * 60 * DayNumber(BuildDate(seconds));
      ValidDate(BuildDate(seconds)) && midnight <= seconds < midnight + 24 * 60 * 60
  {
    hide CivilFromDays, DayNumber, ValidDate;
    RoundTrip(seconds / SECONDS_PER_DAY);
  }
}
