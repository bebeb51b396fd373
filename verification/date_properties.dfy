/**
 * What parse makes of dates: text read by the full-date patterns, the
 * eight-digit form that is kept from the epoch-seconds reading, two-digit
 * years, and weekday names.
 */
module DateProperties {
  import opened Results
  import opened Text
  import opened Calendar
  import opened Patterns
  import opened DateTimeParser
  import opened PatternProperties
  import opened ParserProperties
  import opened TimeProperties

  /** Text that starts with a digit is no keyword. */
  lemma NumericTextIsNoKeyword(s: string)
    requires s != [] && IsDigit(s[0])
    ensures !StartsWith(s, "noon") && !StartsWith(s, "teatime") && !StartsWith(s, "midnight")
    ensures s != "now" && s != "today" && s != "tomorrow" && s != "yesterday"
  {
  }

  /** Text that starts with a digit is read by none of the name patterns. */
  lemma NumericTextIsNoName(s: string, pivot: int)
    requires s != [] && IsDigit(s[0])
    ensures ParseDate(s, MonthNameDayYear, pivot).None?
    ensures ParseDate(s, MonthNameDay, pivot).None?
    ensures ParseDate(s, DayOfWeekName, pivot).None?
  {
    DigitsAreNoNames(s);
    TextFieldAvoids(s, MonthNames, MonthShortNames);
    TextFieldAvoids(s, DayNames, DayShortNames);
  }

  /** The full-date patterns of parseTime, tried one after the other. */
  lemma FirstDateCascade(s: string, pivot: int)
    ensures FirstDate(s, DatePatterns, pivot) ==
            if ParseDate(s, MonthDayShortYear, pivot).Some? then ParseDate(s, MonthDayShortYear, pivot)
            else if ParseDate(s, MonthDayYear, pivot).Some? then ParseDate(s, MonthDayYear, pivot)
            else if ParseDate(s, YearMonthDay, pivot).Some? then ParseDate(s, YearMonthDay, pivot)
            else ParseDate(s, MonthNameDayYear, pivot)
  {
    var ps := DatePatterns;
    FirstDateStep(s, ps, pivot);
    FirstDateStep(s, ps[1..], pivot);
    FirstDateStep(s, ps[2..], pivot);
    FirstDateStep(s, ps[3..], pivot);
    assert ps[1..][1..] == ps[2..] && ps[2..][1..] == ps[3..] && ps[3..][1..] == [];
  }

  /** One step of the pattern loop. */
  lemma FirstDateStep(s: string, ps: seq<Pattern>, pivot: int)
    requires ps != []
    ensures FirstDate(s, ps, pivot) ==
            if ParseDate(s, ps[0], pivot).Some? then ParseDate(s, ps[0], pivot) else FirstDate(s, ps[1..], pivot)
  {
  }

  /**
   * Text without ':' that starts with a digit is midnight of the reference
   * day, on the date of the first full-date pattern that reads it, if any.
   */
  lemma NumericTextTime(s: string, now: DateTime)
    requires ValidDateTime(now) && s != [] && IsDigit(s[0]) && ':' !in s
    ensures TimeResult(s, now) == Ok(match FirstDate(s, DatePatterns, Pivot(now))
                                     case Some(d) => StartOfDay(now).(date := d)
                                     case None => StartOfDay(now))
  {
    NumericTextIsNoKeyword(s);
    NumericTextIsNoName(s, Pivot(now));
  }

  /** The same, stated on the whole input of parse. */
  lemma DateInput(s: string, now: DateTime)
    requires ValidDateTime(now) && s != [] && IsDigit(s[0])
    requires NoSeparators(s) && '+' !in s && '-' !in s && ':' !in s
    requires !AllDigits(s) || EightDigitDate(s)
    ensures ParseResult(s, now) == Ok(match FirstDate(s, DatePatterns, Pivot(now))
                                      case Some(d) => StartOfDay(now).(date := d)
                                      case None => StartOfDay(now))
  {
    ParseOfTimeText(s, now);
    NumericTextTime(s, now);
  }

  // ---------------------------------------------------------------------
  // Eight digits

  /** Eight digits are no "MM/dd" date and are read by "YYYYMMdd" as four, two and two digits. */
  lemma EightDigitFields(t: string, pivot: int)
    requires |t| == 8 && AllDigits(t)
    ensures ParseDate(t, MonthDayShortYear, pivot).None?
    ensures ParseDate(t, MonthDayYear, pivot).None?
    ensures ParseDate(t, YearMonthDay, pivot) ==
            CheckedDate(DigitsValue(t[..4]), DigitsValue(t[4..6]), DigitsValue(t[6..]), 1)
  {
    assert t[4..][..2] == t[4..6] && t[4..][2..] == t[6..];
    assert t[6..][..2] == t[6..] && t[6..][2..] == [];
  }

  /**
   * An eight-digit input kept from the epoch-seconds reading is midnight of
   * that date, or of the reference day when no such date exists.
   */
  lemma EightDigitDateInput(t: string, now: DateTime)
    requires ValidDateTime(now) && EightDigitDate(t)
    ensures var d := Date(DigitsValue(t[..4]), DigitsValue(t[4..6]), DigitsValue(t[6..]));
            ParseResult(t, now) == Ok(if ValidDate(d) then StartOfDay(now).(date := d) else StartOfDay(now))
  {
    EightDigitFirstDate(t, Pivot(now));
    DateInput(t, now);
  }

  /** The first full-date pattern to read eight digits is "YYYYMMdd", when they form a date. */
  lemma EightDigitFirstDate(t: string, pivot: int)
    requires EightDigitDate(t)
    ensures var d := Date(DigitsValue(t[..4]), DigitsValue(t[4..6]), DigitsValue(t[6..]));
            FirstDate(t, DatePatterns, pivot) == if ValidDate(d) then Some(d) else None
  {
    DigitsValueBelow(t[..4]);
    assert Pow10(4) == 10000;
    FirstDateCascade(t, pivot);
    EightDigitFields(t, pivot);
    NumericTextIsNoName(t, pivot);
  }

  /** "YYYYMMdd" text of a date of a four-digit year. */
  function YearMonthDayText(d: Date): string
    requires 0 <= d.year <= 9999 && ValidDate(d)
  {
    FourDigits(d.year) + TwoDigits(d.month) + TwoDigits(d.day)
  }

  /** Every real date after 1900, written "YYYYMMdd", is kept from the epoch-seconds reading. */
  lemma YearMonthDayKept(d: Date)
    requires 1900 < d.year <= 9999 && ValidDate(d)
    ensures var t := YearMonthDayText(d);
            EightDigitDate(t) && t[..4] == FourDigits(d.year) && t[4..6] == TwoDigits(d.month) && t[6..] == TwoDigits(d.day)
  {
    var t := YearMonthDayText(d);
    assert t[..4] == FourDigits(d.year) && t[4..6] == TwoDigits(d.month) && t[6..] == TwoDigits(d.day);
  }

  /** A real date after 1900 written "YYYYMMdd" is midnight of that date, whatever the current day. */
  lemma YearMonthDayInput(d: Date, now: DateTime)
    requires ValidDateTime(now) && 1900 < d.year <= 9999 && ValidDate(d)
    ensures ParseResult(YearMonthDayText(d), now) == Ok(DateTime(d, 0, 0, 0, 0))
  {
    YearMonthDayKept(d);
    EightDigitDateInput(YearMonthDayText(d), now);
  }

  /** "20141230" is midnight of 30 December 2014. */
  lemma YearMonthDayExample(now: DateTime)
    requires ValidDateTime(now)
    ensures ParseResult("20141230", now) == Ok(DateTime(Date(2014, 12, 30), 0, 0, 0, 0))
  {
    assert YearMonthDayText(Date(2014, 12, 30)) == "20141230";
    YearMonthDayInput(Date(2014, 12, 30), now);
  }

  // ---------------------------------------------------------------------
  // Two-digit years

  /** "MM/dd/YY" text of a month, a day and a two-digit year. */
  function SlashedDate(m: int, day: int, yy: int): string
    requires 0 <= m <= 99 && 0 <= day <= 99 && 0 <= yy <= 99
  {
    TwoDigits(m) + "/" + TwoDigits(day) + "/" + TwoDigits(yy)
  }

  /** The two-digit year goes through the pivot. */
  lemma SlashedDateFields(m: int, day: int, yy: int, pivot: int)
    requires 0 <= m <= 99 && 0 <= day <= 99 && 0 <= yy <= 99
    ensures ParseDate(SlashedDate(m, day, yy), MonthDayShortYear, pivot) ==
            CheckedDate(PivotYear(yy, pivot), m, day, JodaMinYear)
  {
    var s := SlashedDate(m, day, yy);
    var rest := "/" + TwoDigits(day) + "/" + TwoDigits(yy);
    assert s == TwoDigits(m) + rest;
    LeadingDigitsOfDigits(TwoDigits(m), rest, 2);
    assert s[..2] == TwoDigits(m) && s[2..] == rest;
    var afterMonth := TwoDigits(day) + ("/" + TwoDigits(yy));
    assert rest[1..] == afterMonth;
    LeadingDigitsOfDigits(TwoDigits(day), "/" + TwoDigits(yy), 2);
    assert afterMonth[..2] == TwoDigits(day) && afterMonth[2..] == "/" + TwoDigits(yy);
    assert ("/" + TwoDigits(yy))[1..] == TwoDigits(yy);
  }

  /**
   * "MM/dd/YY" is midnight of that day, in the year ending in YY that lies
   * between 80 years before and 19 years after the reference year.
   */
  lemma ShortYearInput(m: int, day: int, yy: int, now: DateTime)
    requires ValidDateTime(now) && JodaMinYear + 80 <= now.date.year <= JodaMaxYear - 19
    requires 0 <= m <= 99 && 0 <= day <= 99 && 0 <= yy <= 99
    requires ValidDate(Date(PivotYear(yy, Pivot(now)), m, day))
    ensures ParseResult(SlashedDate(m, day, yy), now) == Ok(StartOfDay(now).(date := Date(PivotYear(yy, Pivot(now)), m, day)))
    ensures now.date.year - 80 <= PivotYear(yy, Pivot(now)) <= now.date.year + 19
    ensures PivotYear(yy, Pivot(now)) % 100 == yy
  {
    ShortYearFirstDate(m, day, yy, Pivot(now));
    SlashedDateIsPlain(m, day, yy);
    DateInput(SlashedDate(m, day, yy), now);
  }

  lemma ShortYearFirstDate(m: int, day: int, yy: int, pivot: int)
    requires JodaMinYear + 50 <= pivot <= JodaMaxYear - 49
    requires 0 <= m <= 99 && 0 <= day <= 99 && 0 <= yy <= 99
    requires ValidDate(Date(PivotYear(yy, pivot), m, day))
    ensures FirstDate(SlashedDate(m, day, yy), DatePatterns, pivot) == Some(Date(PivotYear(yy, pivot), m, day))
  {
    var s := SlashedDate(m, day, yy);
    SlashedDateFields(m, day, yy, pivot);
    assert s[2] == '/';
    FirstDateCascade(s, pivot);
  }

  lemma SlashedDateIsPlain(m: int, day: int, yy: int)
    requires 0 <= m <= 99 && 0 <= day <= 99 && 0 <= yy <= 99
    ensures SlashedDate(m, day, yy) != [] && IsDigit(SlashedDate(m, day, yy)[0])
    ensures NoSeparators(SlashedDate(m, day, yy)) && !AllDigits(SlashedDate(m, day, yy))
    ensures '+' !in SlashedDate(m, day, yy) && '-' !in SlashedDate(m, day, yy) && ':' !in SlashedDate(m, day, yy)
  {
    assert SlashedDate(m, day, yy)[2] == '/';
  }

  /** A year with the same last two digits, none of them a century, is a leap year alike. */
  lemma LeapYearByLastDigits(y: int, yy: int)
    requires 1 <= yy < 100 && y % 100 == yy
    ensures IsLeapYear(y) == IsLeapYear(yy)
  {
    var k := y / 100;
    assert y == 4 * (25 * k) + yy;
  }

  /** A numeric field that takes the whole text reads all of it as its value. */
  lemma WholeNumber(a: string, max: nat)
    requires Number(a, max).Some? && Number(a, max).value.rest == []
    ensures a != [] && AllDigits(a) && |a| <= max && Number(a, max).value.value == DigitsValue(a)
  {
    var n := LeadingDigits(a, max);
    assert a[..n] == a;
  }

  /** A lenient year of digits: two go through the pivot, any other count is the year itself. */
  lemma LenientYearOfDigits(a: string, pivot: int)
    requires a != [] && AllDigits(a)
    ensures |a| == 2 ==> DigitsValue(a) < 100
    ensures LenientYear(a, pivot) == Some(if |a| == 2 then PivotYear(DigitsValue(a), pivot) else DigitsValue(a))
  {
    DigitsValueBelow(a);
    assert Pow10(2) == 100;
  }

  /** The year the two-digit pattern gives a text of the four-digit pattern's year, yy, makes the same dates valid. */
  lemma PivotKeepsDates(yy: int, m: int, d: int, pivot: int)
    requires 1 <= yy < 100 && JodaMinYear + 50 <= pivot <= JodaMaxYear - 49
    requires ValidDate(Date(yy, m, d))
    ensures CheckedDate(PivotYear(yy, pivot), m, d, JodaMinYear) == Some(Date(PivotYear(yy, pivot), m, d))
  {
    LeapYearByLastDigits(PivotYear(yy, pivot), yy);
  }

  /**
   * "MM/dd/YYYY" is never reached: whatever text it reads, "MM/dd/YY" (tried
   * first) reads as well, to the same date when the year has three digits or
   * more.
   */
  lemma LongYearIsShadowed(s: string, pivot: int)
    requires JodaMinYear + 50 <= pivot <= JodaMaxYear - 49
    ensures ParseDate(s, MonthDayYear, pivot).Some? ==> ParseDate(s, MonthDayShortYear, pivot).Some?
    ensures ParseDate(s, MonthDayYear, pivot).Some? && ParseDate(s, MonthDayYear, pivot).value.year >= 100 ==>
            ParseDate(s, MonthDayShortYear, pivot) == ParseDate(s, MonthDayYear, pivot)
  {
    if ParseDate(s, MonthDayYear, pivot).Some? {
      var month := Number(s, 2).value;
      var afterMonth := Literal(month.rest, '/').value;
      var day := Number(afterMonth, 2).value;
      var afterDay := Literal(day.rest, '/').value;
      WholeNumber(afterDay, 9);
      LenientYearOfDigits(afterDay, pivot);
      if |afterDay| == 2 {
        PivotKeepsDates(DigitsValue(afterDay), month.value, day.value, pivot);
      }
    }
  }

  /** "MM/dd/" and a year of any number of digits but two: the year is read as written. */
  function SlashedLongDate(m: int, day: int, yd: string): string
    requires 0 <= m <= 99 && 0 <= day <= 99
  {
    TwoDigits(m) + ("/" + (TwoDigits(day) + ("/" + yd)))
  }

  /** "MM/dd/YY" read field by field. */
  lemma MonthDayShortYearSteps(s: string, pivot: int, m: int, day: int, y: int, r1: string, a1: string, r2: string, a2: string)
    requires Number(s, 2) == Some(Scan(m, r1)) && Literal(r1, '/') == Some(a1)
    requires Number(a1, 2) == Some(Scan(day, r2)) && Literal(r2, '/') == Some(a2)
    requires LenientYear(a2, pivot) == Some(y)
    ensures ParseDate(s, MonthDayShortYear, pivot) == CheckedDate(y, m, day, JodaMinYear)
  {
  }

  lemma SlashLiteral(t: string)
    ensures Literal("/" + t, '/') == Some(t)
  {
    assert ("/" + t)[1..] == t;
  }

  lemma TwoDigitField(n: int, t: string)
    requires 0 <= n <= 99
    ensures Number(TwoDigits(n) + ("/" + t), 2) == Some(Scan(n, "/" + t))
  {
    NumberOfDigits(TwoDigits(n), "/" + t, 2);
  }

  /** A year of any digit count but two is not moved by the pivot. */
  lemma LongYearOfDigits(a: string, pivot: int)
    requires a != [] && AllDigits(a) && |a| != 2
    ensures LenientYear(a, pivot) == Some(DigitsValue(a))
  {
  }

  lemma SlashedLongDateFields(m: int, day: int, yd: string, pivot: int)
    requires 0 <= m <= 99 && 0 <= day <= 99 && yd != [] && AllDigits(yd) && |yd| != 2
    ensures ParseDate(SlashedLongDate(m, day, yd), MonthDayShortYear, pivot) == CheckedDate(DigitsValue(yd), m, day, JodaMinYear)
  {
    var afterMonth := TwoDigits(day) + ("/" + yd);
    TwoDigitField(m, afterMonth);
    SlashLiteral(afterMonth);
    TwoDigitField(day, yd);
    SlashLiteral(yd);
    LongYearOfDigits(yd, pivot);
    MonthDayShortYearSteps(SlashedLongDate(m, day, yd), pivot, m, day, DigitsValue(yd), "/" + afterMonth, afterMonth, "/" + yd, yd);
  }

  /**
   * "MM/dd/" and a year of any digit count but two is read by "MM/dd/YY",
   * the first date pattern, and its lenient year takes those digits as the year itself.
   */
  lemma SlashedLongFirstDate(m: int, day: int, yd: string, pivot: int)
    requires 0 <= m <= 99 && 0 <= day <= 99 && yd != [] && AllDigits(yd) && |yd| != 2
    requires DigitsValue(yd) <= JodaMaxYear && ValidDate(Date(DigitsValue(yd), m, day))
    ensures FirstDate(SlashedLongDate(m, day, yd), DatePatterns, pivot) == Some(Date(DigitsValue(yd), m, day))
  {
    SlashedLongDateFields(m, day, yd, pivot);
    FirstDateCascade(SlashedLongDate(m, day, yd), pivot);
  }

  /** "MM/dd/YYYY" is midnight of that date, whatever the current date. */
  lemma SlashedLongDateInput(m: int, day: int, y: int, now: DateTime)
    requires ValidDateTime(now) && 0 <= m <= 99 && 0 <= day <= 99 && 0 <= y <= 9999
    requires ValidDate(Date(y, m, day))
    ensures ParseResult(SlashedLongDate(m, day, FourDigits(y)), now) == Ok(StartOfDay(now).(date := Date(y, m, day)))
  {
    SlashedLongFirstDate(m, day, FourDigits(y), Pivot(now));
    SlashedLongDateIsPlain(m, day, FourDigits(y));
    DateInput(SlashedLongDate(m, day, FourDigits(y)), now);
  }

  lemma SlashedLongDateIsPlain(m: int, day: int, yd: string)
    requires 0 <= m <= 99 && 0 <= day <= 99 && AllDigits(yd)
    ensures SlashedLongDate(m, day, yd) != [] && IsDigit(SlashedLongDate(m, day, yd)[0])
    ensures NoSeparators(SlashedLongDate(m, day, yd)) && !AllDigits(SlashedLongDate(m, day, yd))
    ensures '+' !in SlashedLongDate(m, day, yd) && '-' !in SlashedLongDate(m, day, yd) && ':' !in SlashedLongDate(m, day, yd)
  {
    var s := SlashedLongDate(m, day, yd);
    assert s[2] == '/';
    forall i | 0 <= i < |s|
      ensures IsDigit(s[i]) || s[i] == '/'
    {
      if i >= 6 {
        assert s[i] == yd[i - 6];
      }
    }
  }

  /** "12/30/2014" is midnight of 30 December 2014. */
  lemma SlashedLongDateExample(now: DateTime)
    requires ValidDateTime(now)
    ensures ParseResult("12/30/2014", now) == Ok(DateTime(Date(2014, 12, 30), 0, 0, 0, 0))
  {
    assert SlashedLongDate(12, 30, FourDigits(2014)) == "12/30/2014";
    SlashedLongDateInput(12, 30, 2014, now);
  }

  /**
   * "12/30/14" is midnight of 30 December 2014 while the current year lies
   * between 1995 and 2094, the years whose pivot window holds 2014.
   */
  lemma ShortYearExample(now: DateTime)
    requires ValidDateTime(now) && 1995 <= now.date.year <= 2094
    ensures ParseResult("12/30/14", now) == Ok(DateTime(Date(2014, 12, 30), 0, 0, 0, 0))
  {
    assert SlashedDate(12, 30, 14) == "12/30/14";
    var y := PivotYear(14, Pivot(now));
    assert y == 2014;
    ShortYearInput(12, 30, 14, now);
  }

  // ---------------------------------------------------------------------
  // Weekday names

  lemma NowIsNoName()
    ensures NoDayName("now")
  {
  }

  /** A text a weekday pattern reads is none of the words parseTime treats as a whole. */
  lemma WeekdayIsNoWord(s: string, pivot: int)
    requires ParseDate(s, DayOfWeekName, pivot).Some?
    ensures s != "now" && s != "today" && s != "tomorrow" && s != "yesterday"
  {
    if s == "now" || s == "today" || s == "tomorrow" || s == "yesterday" {
      TomorrowIsNoName();
      YesterdayIsNoName();
      TodayIsNoName();
      NowIsNoName();
      TextFieldAvoids(s, DayNames, DayShortNames);
      assert false;
    }
  }

  /** parseTime on a weekday name that starts no keyword and no month name. */
  lemma WeekdayTime(s: string, now: DateTime, w: Date)
    requires ValidDateTime(now) && s != [] && !IsDigit(s[0]) && ':' !in s
    requires !StartsWith(s, "noon") && !StartsWith(s, "teatime") && !StartsWith(s, "midnight")
    requires NoMonthName(s) && ParseDate(s, DayOfWeekName, Pivot(now)) == Some(w)
    ensures TimeResult(s, now) == Ok(StartOfDay(now).(date := RewindToWeekday(now.date, DayOfWeek(w))))
  {
    WeekdayIsNoWord(s, Pivot(now));
    LetterTextIsNoDate(s, Pivot(now));
  }

  /** Text that starts with neither a digit nor a month name is read by no date pattern. */
  lemma LetterTextIsNoDate(s: string, pivot: int)
    requires s != [] && !IsDigit(s[0]) && NoMonthName(s)
    ensures FirstDate(s, DatePatterns, pivot).None?
    ensures ParseDate(s, MonthNameDay, pivot).None?
  {
    TextFieldAvoids(s, MonthNames, MonthShortNames);
    FirstDateCascade(s, pivot);
  }

  /**
   * A weekday name (and nothing else) is midnight of the latest day, up to
   * and including the reference day, that falls on that weekday.
   */
  lemma WeekdayInput(s: string, now: DateTime, w: Date)
    requires ValidDateTime(now) && s != [] && !IsDigit(s[0])
    requires NoSeparators(s) && '+' !in s && '-' !in s && ':' !in s
    requires !StartsWith(s, "noon") && !StartsWith(s, "teatime") && !StartsWith(s, "midnight")
    requires NoMonthName(s) && ParseDate(s, DayOfWeekName, Pivot(now)) == Some(w)
    ensures ParseResult(s, now) == Ok(StartOfDay(now).(date := RewindToWeekday(now.date, DayOfWeek(w))))
  {
    WeekdayTime(s, now, w);
    WordIsNotNumeric(s);
    ParseOfTimeText(s, now);
  }
}
