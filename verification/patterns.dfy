/**
 * The Joda-Time pattern formatters the parser uses, as explicit recognisers
 * for the English locale. Joda parses a numeric field by taking as many
 * ASCII digits as it can, at least one and at most the field's width (the
 * pattern's letter count only matters when printing), and never backtracks;
 * the whole text must be consumed; the parsed fields must form a real date
 * (and time). A text field (MMMM, EEE) takes the longest prefix, at most nine
 * characters, that is a full or short name in its original, lower or upper
 * case. Fields missing from a pattern default to the year 2000.
 */
module Patterns {
  import opened Results
  import opened Text
  import opened Calendar

  /** Joda's ISO chronology supports years in this range only. */
  const JodaMinYear := -292275054
  const JodaMaxYear := 292278993

  /** The year Joda uses for a pattern without a year field. */
  const DefaultYear := 2000

  /** A parsed field value and the text after it. */
  datatype Scan = Scan(value: int, rest: string)

  /** Number of leading digits of s, at most max. */
  function LeadingDigits(s: string, max: nat): (n: nat)
    ensures n <= max && n <= |s| && AllDigits(s[..n])
    ensures n < max && n < |s| ==> !IsDigit(s[n])
  {
    if max == 0 || s == [] || !IsDigit(s[0]) then 0
    else
      var k := LeadingDigits(s[1..], max - 1);
      assert s[..k + 1] == [s[0]] + s[1..][..k];
      k + 1
  }

  /** An unsigned numeric field of at most max digits. */
  function Number(s: string, max: nat): (r: Option<Scan>)
    ensures r.Some? <==> max > 0 && s != [] && IsDigit(s[0])
    ensures r.Some? ==> 0 <= r.value.value && |r.value.rest| < |s|
  {
    var n := LeadingDigits(s, max);
    if n == 0 then None else Some(Scan(DigitsValue(s[..n]), s[n..]))
  }

  /**
   * A signed numeric field ('y') as the Joda-Time NumberFormatter reads it
   * when it advances past a '+' before widening its digit limit: a sign must
   * be directly followed by a digit. After a '-' at most max digits follow; a
   * '+' is skipped and the limit grows by one, so up to max + 1 digits follow
   * it. Without a sign the field is unsigned.
   */
  function SignedNumber(s: string, max: nat): (r: Option<Scan>)
    ensures r.Some? ==> |r.value.rest| < |s|
  {
    if 2 <= |s| && s[0] == '-' && IsDigit(s[1]) then
      var n :- Number(s[1..], max);
      Some(Scan(-n.value, n.rest))
    else if 2 <= |s| && s[0] == '+' && IsDigit(s[1]) then Number(s[1..], max + 1)
    else Number(s, max)
  }

  /** A literal character of the pattern. */
  function Literal(s: string, c: char): (r: Option<string>)
    ensures r.Some? <==> s != [] && s[0] == c
    ensures r.Some? ==> r.value == s[1..]
  {
    if s != [] && s[0] == c then Some(s[1..]) else None
  }

  // ---------------------------------------------------------------------
  // Text fields

  const MonthNames: seq<string> := ["January", "February", "March", "April", "May", "June", "July",
                                    "August", "September", "October", "November", "December"]
  const MonthShortNames: seq<string> := ["Jan", "Feb", "Mar", "Apr", "May", "Jun", "Jul", "Aug", "Sep",
                                         "Oct", "Nov", "Dec"]
  const DayNames: seq<string> := ["Monday", "Tuesday", "Wednesday", "Thursday", "Friday", "Saturday", "Sunday"]
  const DayShortNames: seq<string> := ["Mon", "Tue", "Wed", "Thu", "Fri", "Sat", "Sun"]

  /** The length of the longest full name, "September" and "Wednesday": the most a text field reads. */
  const MaxTextLength := 9

  function LowerChar(c: char): char {
    if 'A' <= c <= 'Z' then (c as int + 32) as char else c
  }

  function UpperChar(c: char): char {
    if 'a' <= c <= 'z' then (c as int - 32) as char else c
  }

  function Lower(s: string): (r: string)
    ensures |r| == |s| && forall k :: 0 <= k < |s| ==> r[k] == LowerChar(s[k])
  {
    if s == [] then [] else [LowerChar(s[0])] + Lower(s[1..])
  }

  function Upper(s: string): (r: string)
    ensures |r| == |s| && forall k :: 0 <= k < |s| ==> r[k] == UpperChar(s[k])
  {
    if s == [] then [] else [UpperChar(s[0])] + Upper(s[1..])
  }

  /** The spellings Joda accepts for a name: as written, lower case, upper case. */
  predicate IsSpellingOf(p: string, name: string) {
    p == name || p == Lower(name) || p == Upper(name)
  }

  /** The 1-based index of the first name (from i on) that p spells, full or short; 0 when none. */
  function NameValue(p: string, full: seq<string>, short: seq<string>, i: nat): (v: int)
    requires |full| == |short|
    ensures v == 0 || i < v <= |full|
    ensures v != 0 ==> IsSpellingOf(p, full[v - 1]) || IsSpellingOf(p, short[v - 1])
    decreases |full| - i
  {
    if i >= |full| then 0
    else if IsSpellingOf(p, full[i]) || IsSpellingOf(p, short[i]) then i + 1
    else NameValue(p, full, short, i + 1)
  }

  function LongestName(s: string, len: nat, full: seq<string>, short: seq<string>): (r: Option<Scan>)
    requires len <= |s| && |full| == |short|
    ensures r.Some? ==> 1 <= r.value.value <= |full| && |r.value.rest| < |s|
  {
    if len == 0 then None
    else
      var v := NameValue(s[..len], full, short, 0);
      if v != 0 then Some(Scan(v, s[len..])) else LongestName(s, len - 1, full, short)
  }

  /** A text field: the longest prefix of at most MaxTextLength characters that spells a name. */
  function TextField(s: string, full: seq<string>, short: seq<string>): (r: Option<Scan>)
    requires |full| == |short|
    ensures r.Some? ==> 1 <= r.value.value <= |full| && |r.value.rest| < |s|
  {
    LongestName(s, if |s| < MaxTextLength then |s| else MaxTextLength, full, short)
  }

  // ---------------------------------------------------------------------
  // Years

  /**
   * Joda's two-digit year with pivot p (appendTwoDigitYear): the century is
   * chosen so that the year falls in [p - 50, p + 49].
   */
  function PivotYear(yy: int, pivot: int): (y: int)
    requires 0 <= yy < 100
    ensures pivot - 50 <= y <= pivot + 49 && y % 100 == yy
  {
    var low := pivot - 50;
    var t := low % 100;
    low - t + yy + (if yy < t then 100 else 0)
  }

  /**
   * A lenient "YY" field at the end of a pattern: exactly two unsigned digits
   * go through the pivot; a '-' sign, one digit or more than two digits are
   * taken as the year itself.
   */
  function LenientYear(s: string, pivot: int): (r: Option<int>)
    ensures r.Some? ==> s != [] && (AllDigits(s) || (s[0] == '-' && AllDigits(s[1..])))
    ensures s != [] && AllDigits(s) ==> r.Some?
    ensures |s| == 2 && AllDigits(s) ==> r.Some? && pivot - 50 <= r.value <= pivot + 49 && r.value % 100 == DigitsValue(s)
  {
    if 2 <= |s| && s[0] == '-' && AllDigits(s[1..]) then Some(-(DigitsValue(s[1..]) as int))
    else if s != [] && AllDigits(s) then
      DigitsValueBelow(s);
      Some(if |s| == 2 then PivotYear(DigitsValue(s), pivot) else DigitsValue(s))
    else None
  }

  /** The date y-m-d when it exists and its year is at least minYear and within Joda's range. */
  function CheckedDate(y: int, m: int, d: int, minYear: int): (r: Option<Date>)
    ensures r.Some? <==> minYear <= y <= JodaMaxYear && ValidDate(Date(y, m, d))
    ensures r.Some? ==> r.value == Date(y, m, d)
  {
    if minYear <= y <= JodaMaxYear && ValidDate(Date(y, m, d)) then Some(Date(y, m, d)) else None
  }

  // ---------------------------------------------------------------------
  // The patterns

  /** "HH:mmyyyyMMdd": the compact fast path, a full date and time with seconds zero. */
  function CompactDateTime(s: string): (r: Option<DateTime>)
    ensures r.Some? ==> ValidDateTime(r.value) && r.value.second == 0 && r.value.milli == 0
    ensures r.Some? ==> ':' in s
  {
    var hour :- Number(s, 2);
    var afterColon :- Literal(hour.rest, ':');
    assert s[|s| - |hour.rest|] == ':';
    var minute :- Number(afterColon, 2);
    var year :- SignedNumber(minute.rest, 4);
    var month :- Number(year.rest, 2);
    var day :- Number(month.rest, 2);
    var date := Date(year.value, month.value, day.value);
    if day.rest == [] && hour.value <= 23 && minute.value <= 59 && ValidDate(date)
    then Some(DateTime(date, hour.value, minute.value, 0, 0))
    else None
  }

  /** The date patterns of parseTime and parseDate. */
  datatype Pattern =
    | MonthDayShortYear   // "MM/dd/YY"
    | MonthDayYear        // "MM/dd/YYYY"
    | YearMonthDay        // "YYYYMMdd"
    | MonthNameDayYear    // "MMMMddYYYY"
    | MonthNameDay        // "MMMMdd"
    | DayOfWeekName       // "EEE"

  /** The date in the ISO week of 2000-01-01 that falls on weekday w, as Joda builds it for "EEE". */
  function WeekdayInDefaultYear(w: int): (d: Date)
    requires 1 <= w <= 7
    ensures ValidDate(d) && DayOfWeek(d) == w
  {
    WeekOf2000(w);
    AddDays(Date(DefaultYear, 1, 1), w - 6)
  }

  /** 2000-01-01 is a Saturday, so the six days before it and itself take every weekday once. */
  lemma WeekOf2000(w: int)
    requires 1 <= w <= 7
    ensures DayOfWeek(AddDays(Date(DefaultYear, 1, 1), w - 6)) == w
  {
    DayNumberOf2000();
    var d := AddDays(Date(DefaultYear, 1, 1), w - 6);
    assert DayNumber(d) == 10957 + (w - 6);
    WeekdayNear2000(w);
  }

  lemma WeekdayNear2000(w: int)
    requires 1 <= w <= 7
    ensures WeekdayOfDayNumber(10957 + (w - 6)) == w
  {
    assert 10957 + (w - 6) + 3 == 7 * 1565 + (w - 1);
  }

  /**
   * parseDate: the date a pattern reads from the whole text, or None where
   * Joda throws IllegalArgumentException. pivot is the two-digit-year pivot.
   */
  function ParseDate(s: string, p: Pattern, pivot: int): (r: Option<Date>)
    ensures r.Some? ==> ValidDate(r.value)
  {
    match p
    case MonthDayShortYear =>
      var month :- Number(s, 2);
      var afterMonth :- Literal(month.rest, '/');
      var day :- Number(afterMonth, 2);
      var afterDay :- Literal(day.rest, '/');
      var year :- LenientYear(afterDay, pivot);
      CheckedDate(year, month.value, day.value, JodaMinYear)
    case MonthDayYear =>
      var month :- Number(s, 2);
      var afterMonth :- Literal(month.rest, '/');
      var day :- Number(afterMonth, 2);
      var afterDay :- Literal(day.rest, '/');
      var year :- Number(afterDay, 9);
      if year.rest == [] then CheckedDate(year.value, month.value, day.value, 1) else None
    case YearMonthDay =>
      var year :- Number(s, 4);
      var month :- Number(year.rest, 2);
      var day :- Number(month.rest, 2);
      if day.rest == [] then CheckedDate(year.value, month.value, day.value, 1) else None
    case MonthNameDayYear =>
      var month :- TextField(s, MonthNames, MonthShortNames);
      var day :- Number(month.rest, 2);
      var year :- Number(day.rest, 9);
      if year.rest == [] then CheckedDate(year.value, month.value, day.value, 1) else None
    case MonthNameDay =>
      var month :- TextField(s, MonthNames, MonthShortNames);
      var day :- Number(month.rest, 2);
      if day.rest == [] then CheckedDate(DefaultYear, month.value, day.value, 1) else None
    case DayOfWeekName =>
      var day :- TextField(s, DayNames, DayShortNames);
      if day.rest == [] then Some(WeekdayInDefaultYear(day.value)) else None
  }
}
