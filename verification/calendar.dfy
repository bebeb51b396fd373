/**
 * The calendar arithmetic the parser relies on: proleptic Gregorian dates,
 * a day number counted from 1970-01-01, the ISO weekday (Monday = 1 ..
 * Sunday = 7), and an instant with millisecond precision in one fixed time
 * zone with no daylight-saving changes. The plus operations follow the
 * ISO chronology of Joda-Time: seconds, minutes and hours are durations,
 * days shift the local date, months and years clamp the day of month.
 */
module Calendar {

  const MillisPerSecond := 1000
  const MillisPerMinute := 60000
  const MillisPerHour := 3600000
  const MillisPerDay := 86400000

  predicate IsLeapYear(y: int) {
    y % 4 == 0 && (y % 100 != 0 || y % 400 == 0)
  }

  function DaysInYear(y: int): int {
    if IsLeapYear(y) then 366 else 365
  }

  function DaysInMonth(y: int, m: int): (n: int)
    requires 1 <= m <= 12
    ensures 28 <= n <= 31
    ensures n == 29 <==> m == 2 && IsLeapYear(y)
  {
    if m == 2 then (if IsLeapYear(y) then 29 else 28)
    else if m == 4 || m == 6 || m == 9 || m == 11 then 30
    else 31
  }

  datatype Date = Date(year: int, month: int, day: int)

  predicate ValidDate(d: Date) {
    1 <= d.month <= 12 && 1 <= d.day <= DaysInMonth(d.year, d.month)
  }

  // ---------------------------------------------------------------------
  // Day numbers

  /** Day number of January 1st of year y, counted year by year from 1970. */
  function YearStart(y: int): int
    decreases if y < 1970 then 1970 - y else y - 1970
  {
    if y == 1970 then 0
    else if y > 1970 then YearStart(y - 1) + DaysInYear(y - 1)
    else YearStart(y + 1) - DaysInYear(y)
  }

  lemma YearStartStep(y: int)
    ensures YearStart(y + 1) == YearStart(y) + DaysInYear(y)
  {
  }

  /** 2000-01-01 is day 10957: thirty years of which seven (1972 .. 1996) are leap years. */
  lemma YearStartOf2000()
    ensures YearStart(2000) == 10957
  {
    var y := 1970;
    while y < 2000
      invariant 1970 <= y <= 2000 && YearStart(y) == 365 * (y - 1970) + (y - 1969) / 4
    {
      YearStartStep(y);
      y := y + 1;
    }
  }

  lemma {:induction false} YearStartMonotone(a: int, b: int)
    requires a < b
    ensures YearStart(a + 1) <= YearStart(b)
    decreases b - a
  {
    YearStartStep(a);
    if a + 1 < b {
      YearStartMonotone(a + 1, b);
      YearStartStep(a + 1);
    }
  }

  /** Days of year y before the first day of month m (m == 13: the whole year). */
  function MonthStart(y: int, m: int): (n: int)
    requires 1 <= m <= 13
    ensures m == 13 ==> n == DaysInYear(y)
  {
    var leap := if IsLeapYear(y) && m > 2 then 1 else 0;
    [0, 31, 59, 90, 120, 151, 181, 212, 243, 273, 304, 334, 365][m - 1] + leap
  }

  lemma MonthStartStep(y: int, m: int)
    requires 1 <= m <= 12
    ensures MonthStart(y, m + 1) == MonthStart(y, m) + DaysInMonth(y, m)
  {
  }

  lemma MonthStartMonotone(y: int, a: int, b: int)
    requires 1 <= a < b <= 13
    ensures MonthStart(y, a + 1) <= MonthStart(y, b)
  {
  }

  /** Days from 1970-01-01 to d (negative before it). */
  function DayNumber(d: Date): int
    requires ValidDate(d)
  {
    YearStart(d.year) + MonthStart(d.year, d.month) + d.day - 1
  }

  lemma DayNumberOf2000()
    ensures ValidDate(Date(2000, 1, 1)) && DayNumber(Date(2000, 1, 1)) == 10957
  {
    YearStartOf2000();
  }

  lemma DayNumberBounds(d: Date)
    requires ValidDate(d)
    ensures YearStart(d.year) <= DayNumber(d) < YearStart(d.year + 1)
    ensures MonthStart(d.year, d.month) <= DayNumber(d) - YearStart(d.year) < MonthStart(d.year, d.month + 1)
  {
    YearStartStep(d.year);
    MonthStartStep(d.year, d.month);
    if d.month < 12 {
      MonthStartMonotone(d.year, d.month + 1, 13);
    }
  }

  /** Day numbers tell dates apart. */
  lemma DayNumberInjective(d: Date, e: Date)
    requires ValidDate(d) && ValidDate(e)
    requires DayNumber(d) == DayNumber(e)
    ensures d == e
  {
    DayNumberBounds(d);
    DayNumberBounds(e);
    if d.year < e.year {
      YearStartMonotone(d.year, e.year);
    } else if e.year < d.year {
      YearStartMonotone(e.year, d.year);
    }
    assert d.year == e.year;
    if d.month < e.month {
      MonthStartMonotone(d.year, d.month, e.month);
    } else if e.month < d.month {
      MonthStartMonotone(d.year, e.month, d.month);
    }
  }

  /** The day after d. */
  function NextDay(d: Date): (e: Date)
    requires ValidDate(d)
    ensures ValidDate(e) && DayNumber(e) == DayNumber(d) + 1
  {
    if d.day < DaysInMonth(d.year, d.month) then Date(d.year, d.month, d.day + 1)
    else if d.month < 12 then
      MonthStartStep(d.year, d.month);
      Date(d.year, d.month + 1, 1)
    else
      YearStartStep(d.year);
      Date(d.year + 1, 1, 1)
  }

  /** The day before d. */
  function PrevDay(d: Date): (e: Date)
    requires ValidDate(d)
    ensures ValidDate(e) && DayNumber(e) == DayNumber(d) - 1
  {
    if d.day > 1 then Date(d.year, d.month, d.day - 1)
    else if d.month > 1 then
      MonthStartStep(d.year, d.month - 1);
      Date(d.year, d.month - 1, DaysInMonth(d.year, d.month - 1))
    else
      YearStartStep(d.year - 1);
      Date(d.year - 1, 12, 31)
  }

  /** The date n days after d (before it when n < 0), one day at a time. */
  function AddDays(d: Date, n: int): (e: Date)
    requires ValidDate(d)
    ensures ValidDate(e) && DayNumber(e) == DayNumber(d) + n
    decreases if n < 0 then -n else n
  {
    if n == 0 then d
    else if n > 0 then NextDay(AddDays(d, n - 1))
    else PrevDay(AddDays(d, n + 1))
  }

  const Epoch := Date(1970, 1, 1)

  /** The date with day number n: the inverse of DayNumber. */
  function FromDayNumber(n: int): (d: Date)
    ensures ValidDate(d) && DayNumber(d) == n
  {
    assert DayNumber(Epoch) == 0;
    AddDays(Epoch, n)
  }

  lemma FromDayNumberOfDayNumber(d: Date)
    requires ValidDate(d)
    ensures FromDayNumber(DayNumber(d)) == d
  {
    DayNumberInjective(FromDayNumber(DayNumber(d)), d);
  }

  /** ISO day of week: Monday = 1 .. Sunday = 7; 1970-01-01 was a Thursday. */
  function DayOfWeek(d: Date): (w: int)
    requires ValidDate(d)
    ensures 1 <= w <= 7
  {
    WeekdayOfDayNumber(DayNumber(d))
  }

  function WeekdayOfDayNumber(n: int): int {
    (n + 3) % 7 + 1
  }

  lemma DayBeforeWeekday(d: Date)
    requires ValidDate(d)
    ensures DayOfWeek(AddDays(d, -1)) == if DayOfWeek(d) == 1 then 7 else DayOfWeek(d) - 1
  {
    var e := AddDays(d, -1);
    WeekdayStep(DayNumber(e));
  }

  lemma WeekdayStep(n: int)
    ensures WeekdayOfDayNumber(n + 1) == if WeekdayOfDayNumber(n) == 7 then 1 else WeekdayOfDayNumber(n) + 1
  {
  }

  /** Moving k days moves the weekday k steps around the week. */
  lemma WeekdayShift(n: int, k: int)
    ensures WeekdayOfDayNumber(n + k) == (WeekdayOfDayNumber(n) - 1 + k) % 7 + 1
  {
    var q, r := (n + 3) / 7, (n + 3) % 7;
    assert n + 3 == 7 * q + r;
    assert n + k + 3 == 7 * q + (r + k);
    assert (7 * q + (r + k)) % 7 == (r + k) % 7;
  }

  lemma {:induction false} AddDaysCompose(d: Date, a: int, b: int)
    requires ValidDate(d)
    ensures AddDays(AddDays(d, a), b) == AddDays(d, a + b)
  {
    DayNumberInjective(AddDays(AddDays(d, a), b), AddDays(d, a + b));
  }

  // ---------------------------------------------------------------------
  // Instants

  /** An instant in the fixed zone: a local date and time of day to the millisecond. */
  datatype DateTime = DateTime(date: Date, hour: int, minute: int, second: int, milli: int)

  predicate ValidDateTime(t: DateTime) {
    ValidDate(t.date) && 0 <= t.hour < 24 && 0 <= t.minute < 60 && 0 <= t.second < 60 && 0 <= t.milli < 1000
  }

  function MillisOfDay(t: DateTime): int {
    t.hour * MillisPerHour + t.minute * MillisPerMinute + t.second * MillisPerSecond + t.milli
  }

  /** Milliseconds since 1970-01-01T00:00:00.000 in the fixed zone. */
  function ToMillis(t: DateTime): int
    requires ValidDate(t.date)
  {
    DayNumber(t.date) * MillisPerDay + MillisOfDay(t)
  }

  /** The instant ms milliseconds after the epoch: the inverse of ToMillis. */
  function FromMillis(ms: int): (t: DateTime)
    ensures ValidDateTime(t) && ToMillis(t) == ms
  {
    var tod := ms % MillisPerDay;
    var rest := tod % MillisPerHour;
    var secs := rest % MillisPerMinute;
    DateTime(FromDayNumber(ms / MillisPerDay), tod / MillisPerHour, rest / MillisPerMinute,
             secs / MillisPerSecond, secs % MillisPerSecond)
  }

  lemma FromMillisOfToMillis(t: DateTime)
    requires ValidDateTime(t)
    ensures FromMillis(ToMillis(t)) == t
  {
    var ms := ToMillis(t);
    var u := FromMillis(ms);
    var tod := MillisOfDay(t);
    assert 0 <= tod < MillisPerDay;
    assert ms / MillisPerDay == DayNumber(t.date);
    assert ms % MillisPerDay == tod;
    assert tod / MillisPerHour == t.hour;
    assert tod % MillisPerHour == t.minute * MillisPerMinute + t.second * MillisPerSecond + t.milli;
    FromDayNumberOfDayNumber(t.date);
  }

  /** The instant n milliseconds later: Joda's plusMillis, and the basis of plusSeconds/Minutes/Hours. */
  function PlusMillis(t: DateTime, n: int): (r: DateTime)
    requires ValidDate(t.date)
    ensures ValidDateTime(r) && ToMillis(r) == ToMillis(t) + n
  {
    FromMillis(ToMillis(t) + n)
  }

  function PlusSeconds(t: DateTime, n: int): (r: DateTime)
    requires ValidDate(t.date)
    ensures ValidDateTime(r) && ToMillis(r) == ToMillis(t) + n * MillisPerSecond
  {
    PlusMillis(t, n * MillisPerSecond)
  }

  function PlusMinutes(t: DateTime, n: int): (r: DateTime)
    requires ValidDate(t.date)
    ensures ValidDateTime(r) && ToMillis(r) == ToMillis(t) + n * MillisPerMinute
  {
    PlusMillis(t, n * MillisPerMinute)
  }

  function PlusHours(t: DateTime, n: int): (r: DateTime)
    requires ValidDate(t.date)
    ensures ValidDateTime(r) && ToMillis(r) == ToMillis(t) + n * MillisPerHour
  {
    PlusMillis(t, n * MillisPerHour)
  }

  /** Joda's plusDays: the local date moves, the time of day stays. */
  function PlusDays(t: DateTime, n: int): (r: DateTime)
    requires ValidDate(t.date)
    ensures r.date == AddDays(t.date, n)
    ensures r.hour == t.hour && r.minute == t.minute && r.second == t.second && r.milli == t.milli
  {
    t.(date := AddDays(t.date, n))
  }

  /** With a fixed zone, moving the date by n days is the same as adding n * 24 hours. */
  lemma PlusDaysIsFixedDuration(t: DateTime, n: int)
    requires ValidDateTime(t)
    ensures PlusDays(t, n) == PlusMillis(t, n * MillisPerDay)
  {
    var r := PlusDays(t, n);
    var ms := ToMillis(t) + n * MillisPerDay;
    assert ToMillis(r) == ms;
    FromMillisOfToMillis(r);
    assert PlusMillis(t, n * MillisPerDay) == FromMillis(ms);
  }

  /** Months since year 0: the value PlusMonths moves. */
  function MonthIndex(d: Date): int {
    d.year * 12 + d.month - 1
  }

  /** Joda's plusMonths: move the month, clamp the day to the new month's length. */
  function PlusMonths(t: DateTime, n: int): (r: DateTime)
    requires ValidDate(t.date)
    ensures ValidDate(r.date) && MonthIndex(r.date) == MonthIndex(t.date) + n
    ensures r.date.day == if t.date.day <= DaysInMonth(r.date.year, r.date.month)
                          then t.date.day else DaysInMonth(r.date.year, r.date.month)
    ensures r.hour == t.hour && r.minute == t.minute && r.second == t.second && r.milli == t.milli
  {
    var total := MonthIndex(t.date) + n;
    var y, m := total / 12, total % 12 + 1;
    var last := DaysInMonth(y, m);
    t.(date := Date(y, m, if t.date.day <= last then t.date.day else last))
  }

  /** Joda's plusYears: move the year; February 29th becomes the 28th in a common year. */
  function PlusYears(t: DateTime, n: int): (r: DateTime)
    requires ValidDate(t.date)
    ensures ValidDate(r.date) && r.date.year == t.date.year + n && r.date.month == t.date.month
    ensures r.date.day == if t.date.month == 2 && t.date.day == 29 && !IsLeapYear(t.date.year + n)
                          then 28 else t.date.day
    ensures r.hour == t.hour && r.minute == t.minute && r.second == t.second && r.milli == t.milli
  {
    var y := t.date.year + n;
    var last := DaysInMonth(y, t.date.month);
    t.(date := Date(y, t.date.month, if t.date.day <= last then t.date.day else last))
  }

  /** Adding n years is adding 12 * n months. */
  lemma PlusYearsIsTwelveMonths(t: DateTime, n: int)
    requires ValidDate(t.date)
    ensures PlusYears(t, n) == PlusMonths(t, 12 * n)
  {
    var total := MonthIndex(t.date) + 12 * n;
    assert total == (t.date.year + n) * 12 + (t.date.month - 1);
    assert total / 12 == t.date.year + n;
    assert total % 12 == t.date.month - 1;
  }
}
