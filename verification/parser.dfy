/**
 * DateTimeParser: turns a free-form time expression ("now", "noon",
 * "9:13am", "12/30/14", "20141230", "Jul 30", "Sun", "now-1d",
 * "10:55 2014 12 20", epoch seconds) into an instant.
 *
 * The wall clock is the parameter `now`, read once: it anchors the relative
 * forms and fixes the two-digit-year pivot. A Java exception that escapes
 * the parser is the outcome Thrown(...); those the parser catches become
 * "no match" and the next step runs.
 *
 * Each method is proved equal to a specification function built from the
 * stages below; the loops of parseTime are specified by FirstDate (the first
 * pattern that matches) and RewindToWeekday (a closed form).
 */
module DateTimeParser {
  import opened Results
  import opened Text
  import opened Calendar
  import opened Patterns

  // ---------------------------------------------------------------------
  // parse: numeric input, the compact fast path, the offset split

  /**
   * The all-digit inputs that are kept for the date patterns instead of being
   * read as epoch seconds: eight digits whose year part exceeds 1900, whose
   * month part is below 13 and whose day part is below 32.
   */
  predicate EightDigitDate(t: string) {
    |t| == 8 && AllDigits(t) &&
    DigitsValue(t[..4]) > 1900 && DigitsValue(t[4..6]) < 13 && DigitsValue(t[6..]) < 32
  }

  /** new DateTime(Long.parseLong(t) * 1000): seconds since the epoch, the product wrapping at 64 bits. */
  function EpochSeconds(t: string): (r: Outcome<DateTime>)
    requires AllDigits(t)
    ensures r.Thrown? <==> t == [] || LongMax < DigitsValue(t)
    ensures r.Thrown? ==> r.error == NumberFormat
    ensures r.Ok? ==> ValidDateTime(r.value) && ToMillis(r.value) == Wrap64(DigitsValue(t) * 1000)
  {
    if t == [] then ParseLong(t).PropagateFailure()
    else
      ParseSignedOfDigits(t, LongMin, LongMax);
      var seconds :- ParseLong(t);
      Ok(FromMillis(Wrap64(seconds * 1000)))
  }

  /** The base text and, when there is one, the offset text of a normalised input. */
  datatype Split = Split(base: string, offset: Option<string>)

  /**
   * Split once at the first '+', or else once at the first '-', keeping the
   * '-' on the offset so that its count is negative.
   */
  function SplitOffset(t: string): (r: Split)
    ensures '+' !in r.base
    ensures r.offset.None? <==> '+' !in t && '-' !in t
    ensures r.offset.None? ==> r.base == t
    ensures '+' in t ==> r.offset.Some? && t == r.base + "+" + r.offset.value
    ensures '+' !in t && '-' in t ==> '-' !in r.base && r.offset.Some? && t == r.base + r.offset.value
    ensures '+' !in t && '-' in t ==> r.offset.Some? && r.offset.value[..1] == "-"
  {
    if '+' in t then
      var i := IndexOf(t, '+');
      assert t == t[..i] + "+" + t[i + 1..];
      Split(t[..i], Some(t[i + 1..]))
    else if '-' in t then
      var i := IndexOf(t, '-');
      assert t == t[..i] + "-" + t[i + 1..];
      Split(t[..i], Some("-" + t[i + 1..]))
    else Split(t, None)
  }

  // ---------------------------------------------------------------------
  // parseOffset

  /** Length of the count group "-?\d*" at the start of an offset. */
  function CountLength(offset: string): (n: nat)
    ensures n <= |offset|
    ensures offset != [] && offset[0] == '-' ==> 1 <= n
    ensures AllDigits(if offset != [] && offset[0] == '-' then offset[1..n] else offset[..n])
    ensures n < |offset| ==> !IsDigit(offset[n])
  {
    var sign := if offset != [] && offset[0] == '-' then 1 else 0;
    var n := LeadingDigits(offset[sign..], |offset|);
    assert offset[sign..][..n] == offset[sign..sign + n];
    sign + n
  }

  /** The offset matches "(-?\d*)([a-z]*)" as a whole. */
  predicate MatchesOffset(offset: string) {
    AllLowerLetters(offset[CountLength(offset)..])
  }

  /** The unit is chosen by the first prefix that matches, in this order. */
  function ApplyUnit(base: DateTime, unit: string, count: int): (r: DateTime)
    requires ValidDate(base.date)
    ensures ValidDateTime(base) ==> ValidDateTime(r)
  {
    if StartsWith(unit, "s") then PlusSeconds(base, count)
    else if StartsWith(unit, "min") then PlusMinutes(base, count)
    else if StartsWith(unit, "h") then PlusHours(base, count)
    else if StartsWith(unit, "d") then PlusDays(base, count)
    else if StartsWith(unit, "mon") then PlusMonths(base, count)
    else if StartsWith(unit, "y") then PlusYears(base, count)
    else base
  }

  /**
   * parseOffset: an empty offset, or one not of the form "-?digits letters",
   * leaves the base alone; otherwise the count goes through Integer.parseInt
   * (whose NumberFormatException escapes) and is added in the unit.
   */
  function ParseOffset(base: DateTime, offset: string): (r: Outcome<DateTime>)
    requires ValidDate(base.date)
    ensures offset == "" || !MatchesOffset(offset) ==> r == Ok(base)
    ensures r.Thrown? ==> r.error == NumberFormat
    ensures r.Thrown? <==> offset != "" && MatchesOffset(offset) && ParseInt(offset[..CountLength(offset)]).Thrown?
    ensures r.Ok? && ValidDateTime(base) ==> ValidDateTime(r.value)
  {
    if offset == "" then Ok(base)
    else if !MatchesOffset(offset) then Ok(base)
    else
      var n := CountLength(offset);
      var count :- ParseInt(offset[..n]);
      Ok(ApplyUnit(base, offset[n..], count))
  }

  // ---------------------------------------------------------------------
  // parseTime, stage by stage

  /** The reference instant to the minute: what "" and "now" give. */
  function NowToMinute(now: DateTime): (r: DateTime)
    ensures ValidDateTime(now) ==> ValidDateTime(r)
    ensures r.date == now.date && r.hour == now.hour && r.minute == now.minute && r.second == 0 && r.milli == 0
  {
    now.(second := 0, milli := 0)
  }

  /** Midnight of the reference day: where every other input starts. */
  function StartOfDay(now: DateTime): (r: DateTime)
    ensures ValidDate(now.date) ==> ValidDateTime(r)
    ensures r.date == now.date && r.hour == 0 && r.minute == 0 && r.second == 0 && r.milli == 0
  {
    DateTime(now.date, 0, 0, 0, 0)
  }

  /** What the clock-time stage reads: an hour and minute (not yet range-checked) and the text left. */
  datatype Clock = Clock(hour: int, minute: int, rest: string)

  /**
   * Clock time: the hour is the text before the first ':', the minute the two
   * characters after it; a following "am" is dropped, a following "pm" is
   * dropped and adds 12 hours modulo 24 (in Java int arithmetic).
   */
  function ClockTime(s: string): (r: Outcome<Clock>)
    requires ':' in s
    ensures r.Thrown? ==> r.error == NumberFormat || r.error == IndexOutOfBounds
    ensures r.Ok? ==> |r.value.rest| <= |s| - 3
  {
    var i := IndexOf(s, ':');
    var hour :- ParseInt(s[..i]);
    if |s| < i + 3 then Thrown(IndexOutOfBounds)
    else
      var minute :- ParseInt(s[i + 1..i + 3]);
      Ok(ClockSuffix(hour, minute, s[i + 3..]))
  }

  /** An "am" suffix is dropped; a "pm" suffix is dropped and moves the hour on by 12, modulo 24. */
  function ClockSuffix(hour: int, minute: int, rest: string): Clock {
    if 2 <= |rest| && rest[..2] == "am" then Clock(hour, minute, rest[2..])
    else if 2 <= |rest| && rest[..2] == "pm" then Clock(JavaRem(Wrap32(hour + 12), 24), minute, rest[2..])
    else Clock(hour, minute, rest)
  }

  /** withHourOfDay(hour).withMinuteOfHour(minute): out-of-range values throw. */
  function SetClock(t: DateTime, c: Clock): (r: Outcome<DateTime>)
    ensures r.Ok? <==> 0 <= c.hour <= 23 && 0 <= c.minute <= 59
    ensures r.Ok? ==> r.value == t.(hour := c.hour, minute := c.minute)
    ensures r.Thrown? ==> r.error == IllegalFieldValue
  {
    if 0 <= c.hour <= 23 && 0 <= c.minute <= 59 then Ok(t.(hour := c.hour, minute := c.minute))
    else Thrown(IllegalFieldValue)
  }

  /** An instant under construction and the text not yet consumed. */
  datatype Stage = Stage(time: DateTime, rest: string)

  /** "noon", "teatime" or "midnight" at the start of the text set the time and are consumed. */
  function TimeKeyword(st: Stage): (r: Stage)
    ensures r.time.date == st.time.date && r.time.second == st.time.second && r.time.milli == st.time.milli
    ensures ValidDateTime(st.time) ==> ValidDateTime(r.time)
    ensures StartsWith(st.rest, "noon") ==> r.time.hour == 12 && r.time.minute == 0 && st.rest == "noon" + r.rest
    ensures StartsWith(st.rest, "teatime") ==> r.time.hour == 16 && r.time.minute == 0 && st.rest == "teatime" + r.rest
    ensures StartsWith(st.rest, "midnight") ==> r.time.hour == 0 && r.time.minute == 0 && st.rest == "midnight" + r.rest
    ensures !StartsWith(st.rest, "noon") && !StartsWith(st.rest, "teatime") && !StartsWith(st.rest, "midnight") ==> r == st
  {
    assert StartsWith(st.rest, "teatime") || StartsWith(st.rest, "midnight") ==> st.rest[0] != 'n';
    if StartsWith(st.rest, "noon") then Stage(st.time.(hour := 12, minute := 0), st.rest[4..])
    else if StartsWith(st.rest, "teatime") then Stage(st.time.(hour := 16, minute := 0), st.rest[7..])
    else if StartsWith(st.rest, "midnight") then Stage(st.time.(hour := 0, minute := 0), st.rest[8..])
    else st
  }

  /** The text as a whole being "tomorrow" or "yesterday" moves the date by one day. */
  function DayKeyword(t: DateTime, s: string): (r: DateTime)
    requires ValidDate(t.date)
    ensures ValidDate(r.date) && (ValidDateTime(t) ==> ValidDateTime(r))
    ensures r.hour == t.hour && r.minute == t.minute && r.second == t.second && r.milli == t.milli
    ensures DayNumber(r.date) == DayNumber(t.date) + (if s == "tomorrow" then 1 else if s == "yesterday" then -1 else 0)
  {
    if s == "today" then t
    else if s == "tomorrow" then PlusDays(t, 1)
    else if s == "yesterday" then PlusDays(t, -1)
    else t
  }

  /** The full-date patterns of parseTime, in the order they are tried. */
  const DatePatterns: seq<Pattern> := [MonthDayShortYear, MonthDayYear, YearMonthDay, MonthNameDayYear]

  /** The date read by the first of the patterns that matches the text, if any. */
  function FirstDate(s: string, patterns: seq<Pattern>, pivot: int): (r: Option<Date>)
    ensures r.Some? ==> ValidDate(r.value)
    ensures r.Some? ==> exists i :: 0 <= i < |patterns| && ParseDate(s, patterns[i], pivot) == r &&
                                    forall j :: 0 <= j < i ==> ParseDate(s, patterns[j], pivot).None?
    ensures r.None? <==> forall i :: 0 <= i < |patterns| ==> ParseDate(s, patterns[i], pivot).None?
  {
    if patterns == [] then None
    else
      var d := ParseDate(s, patterns[0], pivot);
      if d.Some? then d else
        var r := FirstDate(s, patterns[1..], pivot);
        assert forall i :: 1 <= i < |patterns| ==> patterns[i] == patterns[1..][i - 1];
        if r.Some? then
          var k :| 0 <= k < |patterns[1..]| && ParseDate(s, patterns[1..][k], pivot) == r &&
                   forall j :: 0 <= j < k ==> ParseDate(s, patterns[1..][j], pivot).None?;
          assert ParseDate(s, patterns[k + 1], pivot) == r;
          r
        else r
  }

  /** The full-date stage: the date of the first matching pattern replaces the current one. */
  function DateStage(t: DateTime, s: string, patterns: seq<Pattern>, pivot: int): (r: DateTime)
    ensures ValidDateTime(t) ==> ValidDateTime(r)
    ensures r.hour == t.hour && r.minute == t.minute && r.second == t.second && r.milli == t.milli
    ensures FirstDate(s, patterns, pivot).Some? ==> r == t.(date := FirstDate(s, patterns, pivot).value)
    ensures FirstDate(s, patterns, pivot).None? ==> r == t
  {
    match FirstDate(s, patterns, pivot)
    case Some(d) => t.(date := d)
    case None => t
  }

  /**
   * "MMMMdd": the month and day replace the current ones, the year stays. When
   * that day does not exist in the current year (February 29th), withDate
   * throws and the exception is caught: nothing changes.
   */
  function MonthDay(t: DateTime, parsed: Option<Date>): (r: DateTime)
    ensures ValidDateTime(t) ==> ValidDateTime(r)
    ensures r.date.year == t.date.year
    ensures r.hour == t.hour && r.minute == t.minute && r.second == t.second && r.milli == t.milli
    ensures parsed.Some? && ValidDate(Date(t.date.year, parsed.value.month, parsed.value.day))
            ==> r.date == Date(t.date.year, parsed.value.month, parsed.value.day)
    ensures parsed.None? || !ValidDate(Date(t.date.year, parsed.value.month, parsed.value.day)) ==> r == t
  {
    match parsed
    case Some(md) =>
      var d := Date(t.date.year, md.month, md.day);
      if ValidDate(d) then t.(date := d) else t
    case None => t
  }

  /** How many days back from d the previous (or same) weekday w lies. */
  function WeekdayGap(d: Date, w: int): (g: int)
    requires ValidDate(d) && 1 <= w <= 7
    ensures 0 <= g < 7
    ensures g == 0 <==> DayOfWeek(d) == w
  {
    var a := DayOfWeek(d);
    if a >= w then a - w else a - w + 7
  }

  /** The latest date on or before d that falls on weekday w. */
  function RewindToWeekday(d: Date, w: int): (r: Date)
    requires ValidDate(d) && 1 <= w <= 7
    ensures ValidDate(r) && DayOfWeek(r) == w
    ensures DayNumber(d) - 6 <= DayNumber(r) <= DayNumber(d)
  {
    RewindLands(d, w);
    AddDays(d, -WeekdayGap(d, w))
  }

  /** Going back the gap from d lands on weekday w. */
  lemma RewindLands(d: Date, w: int)
    requires ValidDate(d) && 1 <= w <= 7
    ensures DayOfWeek(AddDays(d, -WeekdayGap(d, w))) == w
  {
    var g, n := WeekdayGap(d, w), DayNumber(d);
    var r := AddDays(d, -g);
    assert DayNumber(r) == n - g;
    RewindArithmetic(n, w, g);
  }

  /** Going back the gap from a day number's weekday to w lands on w. */
  lemma RewindArithmetic(n: int, w: int, g: int)
    requires 1 <= w <= 7
    requires g == if WeekdayOfDayNumber(n) >= w then WeekdayOfDayNumber(n) - w else WeekdayOfDayNumber(n) - w + 7
    ensures WeekdayOfDayNumber(n - g) == w
  {
    WeekdayShift(n, -g);
  }

  /** No later date up to d falls on weekday w: the rewind stops at the first one. */
  lemma RewindIsLatest(d: Date, w: int, e: Date)
    requires ValidDate(d) && 1 <= w <= 7 && ValidDate(e)
    requires DayOfWeek(e) == w && DayNumber(e) <= DayNumber(d)
    ensures DayNumber(e) <= DayNumber(RewindToWeekday(d, w))
  {
    var r := RewindToWeekday(d, w);
    if DayNumber(r) < DayNumber(e) {
      WeekdaysWithinAWeekDiffer(DayNumber(r), DayNumber(e));
    }
  }

  /** Two days less than a week apart fall on different weekdays. */
  lemma WeekdaysWithinAWeekDiffer(a: int, b: int)
    requires a < b <= a + 6
    ensures WeekdayOfDayNumber(a) != WeekdayOfDayNumber(b)
  {
    WeekdayShift(a, b - a);
  }

  /** "EEE": a weekday name moves the date back, day by day, to that weekday. */
  function WeekdayRewind(t: DateTime, parsed: Option<Date>): (r: DateTime)
    requires ValidDate(t.date)
    requires parsed.Some? ==> ValidDate(parsed.value)
    ensures ValidDateTime(t) ==> ValidDateTime(r)
    ensures r.hour == t.hour && r.minute == t.minute && r.second == t.second && r.milli == t.milli
    ensures parsed.None? ==> r == t
  {
    match parsed
    case Some(wd) => t.(date := RewindToWeekday(t.date, DayOfWeek(wd)))
    case None => t
  }

  /** The two-digit-year pivot: the current year minus 30. */
  function Pivot(now: DateTime): (p: int)
    ensures forall yy :: 0 <= yy < 100 ==> now.date.year - 80 <= PivotYear(yy, p) <= now.date.year + 19
  {
    now.date.year - 30
  }

  /** The clock-time stage on a text containing ':', starting from the instant t. */
  function ClockStage(s: string, t: DateTime): (r: Outcome<Stage>)
    requires ':' in s
    ensures r.Ok? ==> r.value.time.date == t.date && r.value.time.second == t.second && r.value.time.milli == t.milli
    ensures r.Ok? && ValidDateTime(t) ==> ValidDateTime(r.value.time)
  {
    var c :- ClockTime(s);
    var time :- SetClock(t, c);
    Ok(Stage(time, c.rest))
  }

  /** Specification of parseTime: the stages composed in order. */
  function TimeResult(s: string, now: DateTime): (r: Outcome<DateTime>)
    requires ValidDateTime(now)
    ensures r.Ok? ==> ValidDateTime(r.value) && r.value.second == 0 && r.value.milli == 0
    ensures r.Thrown? ==> ':' in s
  {
    if s == "" || s == "now" then Ok(NowToMinute(now))
    else
      var clock :- if ':' in s then ClockStage(s, StartOfDay(now)) else Ok(Stage(StartOfDay(now), s));
      var k := TimeKeyword(clock);
      var pivot := Pivot(now);
      var dated := DateStage(DayKeyword(k.time, k.rest), k.rest, DatePatterns, pivot);
      var withMonthDay := MonthDay(dated, ParseDate(k.rest, MonthNameDay, pivot));
      Ok(WeekdayRewind(withMonthDay, ParseDate(k.rest, DayOfWeekName, pivot)))
  }

  /** parseTime */
  method ParseTime(s: string, now: DateTime) returns (r: Outcome<DateTime>)
    requires ValidDateTime(now)
    ensures r == TimeResult(s, now)
  {
    var result := StartOfDay(now);
    if s == "" || s == "now" {
      return Ok(NowToMinute(now));
    }
    var stage := Stage(result, s);
    if ':' in s {
      stage :- ReadClockTime(s, result);
    }
    stage := ApplyTimeKeyword(stage);
    result := ApplyDayKeyword(stage.time, stage.rest);
    var pivot := Pivot(now);
    result := ApplyFirstDate(result, stage.rest, DatePatterns, pivot);
    result := ApplyMonthDay(result, stage.rest, pivot);
    result := ApplyWeekday(result, stage.rest, pivot);
    return Ok(result);
  }

  /** Lines 90-110 of parseTime: the hour and minute around the first ':', and "am"/"pm". */
  method ReadClockTime(s: string, t: DateTime) returns (r: Outcome<Stage>)
    requires ':' in s
    ensures r == ClockStage(s, t)
  {
    var text := s;
    var colon := IndexOf(text, ':');
    var hour :- ParseInt(text[..colon]);
    if |text| < colon + 3 {
      return Thrown(IndexOutOfBounds);
    }
    var minute :- ParseInt(text[colon + 1..colon + 3]);
    text := text[colon + 3..];
    hour, text := ReadClockSuffix(hour, minute, text);
    if !(0 <= hour <= 23 && 0 <= minute <= 59) {
      return Thrown(IllegalFieldValue);
    }
    return Ok(Stage(t.(hour := hour, minute := minute), text));
  }

  /** Lines 98-106 of parseTime: the "am"/"pm" suffix after the minute. */
  method ReadClockSuffix(hour: int, minute: int, text: string) returns (h: int, rest: string)
    ensures Clock(h, minute, rest) == ClockSuffix(hour, minute, text)
  {
    h, rest := hour, text;
    // substring(0, 2) of a shorter text throws, and the exception is caught
    if 2 <= |rest| {
      if rest[..2] == "am" {
        rest := rest[2..];
      } else if rest[..2] == "pm" {
        h := JavaRem(Wrap32(h + 12), 24);
        rest := rest[2..];
      }
    }
  }

  /** Lines 112-121 of parseTime: "noon", "teatime" or "midnight" at the start of the text. */
  method ApplyTimeKeyword(st: Stage) returns (r: Stage)
    ensures r == TimeKeyword(st)
  {
    var result, text := st.time, st.rest;
    if StartsWith(text, "noon") {
      result := result.(hour := 12, minute := 0);
      text := text[|"noon"|..];
    } else if StartsWith(text, "teatime") {
      result := result.(hour := 16, minute := 0);
      text := text[|"teatime"|..];
    } else if StartsWith(text, "midnight") {
      result := result.(hour := 0, minute := 0);
      text := text[|"midnight"|..];
    }
    return Stage(result, text);
  }

  /** Lines 123-131 of parseTime: "today", "tomorrow" or "yesterday" as the whole text. */
  method ApplyDayKeyword(t: DateTime, text: string) returns (result: DateTime)
    requires ValidDate(t.date)
    ensures result == DayKeyword(t, text)
  {
    result := t;
    if text == "today" {
      // the date stays
    } else if text == "tomorrow" {
      result := PlusDays(result, 1);
    } else if text == "yesterday" {
      result := PlusDays(result, -1);
    }
  }

  /** The loop over the full-date patterns: the first one that matches sets the date and ends the loop. */
  method ApplyFirstDate(t: DateTime, text: string, patterns: seq<Pattern>, pivot: int) returns (result: DateTime)
    ensures result == DateStage(t, text, patterns, pivot)
  {
    result := t;
    for i := 0 to |patterns|
      invariant FirstDate(text, patterns, pivot) == FirstDate(text, patterns[i..], pivot)
    {
      var date := ParseDate(text, patterns[i], pivot);
      if date.Some? {
        result := result.(date := date.value);
        break;
      }
      assert patterns[i..][1..] == patterns[i + 1..];
    }
  }

  /** The "MMMMdd" step of parseTime: a month name and day replace the month and day of t. */
  method ApplyMonthDay(t: DateTime, text: string, pivot: int) returns (result: DateTime)
    ensures result == MonthDay(t, ParseDate(text, MonthNameDay, pivot))
  {
    result := t;
    var monthDay := ParseDate(text, MonthNameDay, pivot);
    if monthDay.Some? {
      var d := Date(result.date.year, monthDay.value.month, monthDay.value.day);
      // withDate throws for a day the current year lacks, and the exception is caught
      if ValidDate(d) {
        result := result.(date := d);
      }
    }
  }

  /** The "EEE" step of parseTime: a weekday name rewinds t to that weekday. */
  method ApplyWeekday(t: DateTime, text: string, pivot: int) returns (result: DateTime)
    requires ValidDate(t.date)
    ensures result == WeekdayRewind(t, ParseDate(text, DayOfWeekName, pivot))
  {
    result := t;
    var weekday := ParseDate(text, DayOfWeekName, pivot);
    if weekday.Some? {
      result := RewindDays(result, DayOfWeek(weekday.value));
    }
  }

  /** The loop that steps the date back one day at a time until it falls on weekday w. */
  method RewindDays(t: DateTime, w: int) returns (result: DateTime)
    requires ValidDate(t.date) && 1 <= w <= 7
    ensures result == t.(date := RewindToWeekday(t.date, w))
  {
    result := t;
    ghost var steps := 0;
    while DayOfWeek(result.date) != w
      invariant ValidDate(result.date) && result == t.(date := result.date)
      invariant DayNumber(result.date) == DayNumber(t.date) - steps
      invariant steps + WeekdayGap(result.date, w) == WeekdayGap(t.date, w)
      decreases WeekdayGap(result.date, w)
    {
      PreviousDayGap(result.date, w);
      result := PlusDays(result, -1);
      steps := steps + 1;
    }
    DayNumberInjective(result.date, RewindToWeekday(t.date, w));
  }

  /** A day earlier is one step closer to weekday w, unless the day already is one. */
  lemma PreviousDayGap(d: Date, w: int)
    requires ValidDate(d) && 1 <= w <= 7 && DayOfWeek(d) != w
    ensures WeekdayGap(AddDays(d, -1), w) == WeekdayGap(d, w) - 1
  {
    DayBeforeWeekday(d);
  }

  // ---------------------------------------------------------------------
  // parse

  /** Specification of parse. */
  function ParseResult(s: string, now: DateTime): (r: Outcome<DateTime>)
    requires ValidDateTime(now)
    ensures r.Ok? ==> ValidDateTime(r.value)
  {
    var t := Normalize(s);
    if AllDigits(t) && !EightDigitDate(t) then EpochSeconds(t)
    else if CompactDateTime(t).Some? then Ok(CompactDateTime(t).value)
    else
      var split := SplitOffset(t);
      var base :- TimeResult(split.base, now);
      match split.offset
      case None => Ok(base)
      case Some(offset) => ParseOffset(base, offset)
  }

  /** parse */
  method Parse(s: string, now: DateTime) returns (r: Outcome<DateTime>)
    requires ValidDateTime(now)
    ensures r == ParseResult(s, now)
  {
    var text := Normalize(s);
    if AllDigits(text) {
      if EightDigitDate(text) {
        // left to the date patterns
      } else {
        var seconds :- ParseLong(text);
        return Ok(FromMillis(Wrap64(seconds * 1000)));
      }
    }
    var compact := CompactDateTime(text);
    if compact.Some? {
      return Ok(compact.value);
    }
    if '+' in text {
      var plus := IndexOf(text, '+');
      var offset := text[plus + 1..];
      var dateTime :- ParseTime(text[..plus], now);
      r := ParseOffset(dateTime, offset);
    } else if '-' in text {
      var minus := IndexOf(text, '-');
      var offset := "-" + text[minus + 1..];
      var dateTime :- ParseTime(text[..minus], now);
      r := ParseOffset(dateTime, offset);
    } else {
      r := ParseTime(text, now);
    }
  }
}
