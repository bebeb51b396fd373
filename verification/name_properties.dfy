/**
 * What parse makes of month and weekday names: "MMMMdd" (a month name and a
 * day, in the current year), "MMMMddYYYY" (a month name, a day and a year)
 * and "EEE" (the latest day up to today on that weekday).
 */
module NameProperties {
  import opened Results
  import opened Text
  import opened Calendar
  import opened Patterns
  import opened DateTimeParser
  import opened PatternProperties
  import opened ParserProperties
  import opened TimeProperties
  import opened DateProperties

  /** p spells the name of entry k of the table, in full or short. */
  predicate SpellsEntry(p: string, full: seq<string>, short: seq<string>, k: nat)
    requires k < |full| && k < |short|
  {
    IsSpellingOf(p, full[k]) || IsSpellingOf(p, short[k])
  }

  lemma KeyOfPrefixed(p: string, rest: string)
    requires 3 <= |p|
    ensures Key(p + rest) == Key(p)
  {
  }

  lemma MonthAndDayKeysDiffer()
    ensures forall i, j :: 0 <= i < 12 && 0 <= j < 7 ==> MonthKeys[i] != DayKeys[j]
  {
  }

  /** The key of a word parseTime treats specially is no month key and no weekday key. */
  lemma WordKeys()
    ensures forall w :: w in ["noo", "tea", "mid", "now", "tod", "tom", "yes"] ==> w !in MonthKeys && w !in DayKeys
  {
  }

  /** Text starting with a lower-case word has that word's first three letters as its key. */
  lemma KeyOfWord(s: string, w: string)
    requires 3 <= |s| && 3 <= |w| && IsLowerLetter(w[0]) && IsLowerLetter(w[1]) && IsLowerLetter(w[2])
    ensures StartsWith(s, w) ==> Key(s) == w[..3]
  {
    if StartsWith(s, w) {
      assert s[0] == w[0] && s[1] == w[1] && s[2] == w[2];
    }
  }

  /** Text whose key is a month or weekday key is none of parseTime's words. */
  lemma NameKeyIsNoWord(s: string)
    requires 3 <= |s| && (Key(s) in MonthKeys || Key(s) in DayKeys)
    ensures !StartsWith(s, "noon") && !StartsWith(s, "teatime") && !StartsWith(s, "midnight")
    ensures s != "now" && s != "today" && s != "tomorrow" && s != "yesterday"
  {
    WordKeys();
    KeyOfWord(s, "noon");
    KeyOfWord(s, "teatime");
    KeyOfWord(s, "midnight");
    KeyOfWord(s, "now");
    KeyOfWord(s, "today");
    KeyOfWord(s, "tomorrow");
    KeyOfWord(s, "yesterday");
  }

  /** Letters followed by digits hold no separator, sign or ':'. */
  lemma NameAndDigitsArePlain(p: string, d: string)
    requires AllLetters(p) && AllDigits(d)
    ensures NoSeparators(p + d) && '+' !in p + d && '-' !in p + d && ':' !in p + d
  {
    forall i | 0 <= i < |p + d|
      ensures IsLetter((p + d)[i]) || IsDigit((p + d)[i])
    {
      if i >= |p| {
        assert (p + d)[i] == d[i - |p|];
      }
    }
  }

  /** A spelling of a month name: its key, its letters, and what a month field reads from it. */
  lemma MonthSpelling(p: string, rest: string, k: nat)
    requires k < 12 && SpellsEntry(p, MonthNames, MonthShortNames, k)
    requires rest == [] || !IsLetter(rest[0])
    ensures 3 <= |p| && AllLetters(p) && Key(p + rest) == MonthKeys[k]
    ensures TextField(p + rest, MonthNames, MonthShortNames) == Some(Scan(k + 1, rest))
    ensures TextField(p + rest, DayNames, DayShortNames).None?
  {
    MonthNameTable();
    DayNameTable();
    if IsSpellingOf(p, MonthNames[k]) {
      SpellingKey(p, MonthNames[k]);
    } else {
      SpellingKey(p, MonthShortNames[k]);
    }
    KeyOfPrefixed(p, rest);
    TextFieldOfName(p, rest, MonthNames, MonthShortNames, MonthKeys, k);
    MonthAndDayKeysDiffer();
    TextFieldOfStranger(p + rest, DayNames, DayShortNames, DayKeys);
  }

  /** A text starting with a letter is read by none of the numeric patterns. */
  lemma LetterTextIsNotNumeric(s: string, pivot: int)
    requires s != [] && !IsDigit(s[0])
    ensures ParseDate(s, MonthDayShortYear, pivot).None? && ParseDate(s, MonthDayYear, pivot).None?
    ensures ParseDate(s, YearMonthDay, pivot).None?
  {
  }

  /** Joda's default year 2000 is a leap year: a day of a month that exists in some year exists in 2000. */
  lemma ValidInDefaultYear(y: int, m: int, d: int)
    requires ValidDate(Date(y, m, d))
    ensures ValidDate(Date(DefaultYear, m, d))
  {
  }

  /**
   * parseTime on a text that is a name followed by digits: no clock, no
   * keyword and no day word apply, and only the date patterns remain.
   */
  lemma NameTextStages(s: string, now: DateTime)
    requires ValidDateTime(now) && 3 <= |s| && (Key(s) in MonthKeys || Key(s) in DayKeys) && ':' !in s
    ensures var pivot := Pivot(now);
            TimeResult(s, now) == Ok(WeekdayRewind(MonthDay(DateStage(StartOfDay(now), s, DatePatterns, pivot),
                                                            ParseDate(s, MonthNameDay, pivot)),
                                                   ParseDate(s, DayOfWeekName, pivot)))
  {
    NameKeyIsNoWord(s);
  }

  /** The patterns of parseTime on a month name followed by a day of one or two digits. */
  lemma MonthNameDayPatterns(p: string, dd: string, k: nat, pivot: int)
    requires k < 12 && SpellsEntry(p, MonthNames, MonthShortNames, k)
    requires 1 <= |dd| <= 2 && AllDigits(dd)
    ensures FirstDate(p + dd, DatePatterns, pivot).None?
    ensures ParseDate(p + dd, MonthNameDay, pivot) == CheckedDate(DefaultYear, k + 1, DigitsValue(dd), 1)
    ensures ParseDate(p + dd, DayOfWeekName, pivot).None?
  {
    MonthSpelling(p, dd, k);
    LetterTextIsNotNumeric(p + dd, pivot);
    NumberOfDigits(dd, [], 2);
    assert dd + [] == dd;
    FirstDateCascade(p + dd, pivot);
  }

  /** "MMMMdd" in the current year, where withDate leaves the date alone for a day the year lacks. */
  lemma MonthDayOfDefaultYear(t: DateTime, m: int, day: int)
    requires ValidDateTime(t)
    ensures var d := Date(t.date.year, m, day);
            MonthDay(t, CheckedDate(DefaultYear, m, day, 1)) == if ValidDate(d) then t.(date := d) else t
  {
    if ValidDate(Date(t.date.year, m, day)) {
      ValidInDefaultYear(t.date.year, m, day);
    }
  }

  /** "MMMMdd": the stages of parseTime on a month name followed by a day of one or two digits. */
  lemma MonthNameDayTime(p: string, dd: string, k: nat, now: DateTime)
    requires ValidDateTime(now) && k < 12 && SpellsEntry(p, MonthNames, MonthShortNames, k)
    requires 1 <= |dd| <= 2 && AllDigits(dd)
    ensures var d := Date(now.date.year, k + 1, DigitsValue(dd));
            TimeResult(p + dd, now) == Ok(if ValidDate(d) then StartOfDay(now).(date := d) else StartOfDay(now))
  {
    MonthTextKey(p, dd, k);
    NameTextStages(p + dd, now);
    MonthNameDayPatterns(p, dd, k, Pivot(now));
    MonthDayOfDefaultYear(StartOfDay(now), k + 1, DigitsValue(dd));
  }

  /** A month name and digits: its key is the month's key, and it has no ':'. */
  lemma MonthTextKey(p: string, dd: string, k: nat)
    requires k < 12 && SpellsEntry(p, MonthNames, MonthShortNames, k)
    requires 1 <= |dd| && AllDigits(dd)
    ensures 3 <= |p + dd| && Key(p + dd) in MonthKeys && ':' !in p + dd
  {
    MonthSpelling(p, dd, k);
    NameAndDigitsArePlain(p, dd);
  }

  /**
   * A month name and a day is midnight of that day in the current year, or
   * of the current day when the current year has no such day.
   */
  lemma MonthNameDayInput(p: string, dd: string, k: nat, now: DateTime)
    requires ValidDateTime(now) && k < 12 && SpellsEntry(p, MonthNames, MonthShortNames, k)
    requires 1 <= |dd| <= 2 && AllDigits(dd)
    ensures var d := Date(now.date.year, k + 1, DigitsValue(dd));
            ParseResult(p + dd, now) == Ok(if ValidDate(d) then StartOfDay(now).(date := d) else StartOfDay(now))
  {
    MonthSpelling(p, dd, k);
    NameAndDigitsArePlain(p, dd);
    WordIsNotNumeric(p + dd);
    ParseOfTimeText(p + dd, now);
    MonthNameDayTime(p, dd, k, now);
  }

  /** A separator between the month name and the day changes nothing: "Jul 30" reads as "Jul30". */
  lemma MonthNameSeparatorDayInput(p: string, c: char, dd: string, k: nat, now: DateTime)
    requires ValidDateTime(now) && k < 12 && SpellsEntry(p, MonthNames, MonthShortNames, k)
    requires 1 <= |dd| <= 2 && AllDigits(dd) && IsSeparator(c)
    ensures ParseResult(p + [c] + dd, now) == ParseResult(p + dd, now)
  {
    MonthSpelling(p, dd, k);
    NameAndDigitsArePlain(p, dd);
    assert NoSeparators(p);
    DigitsAreNotSeparators(dd);
    KeptAfterPlain(p, c, dd);
    KeptCharactersOfPlainText(dd);
    NormalizeKeepsNonSeparators(p + [c] + dd);
    SeparatorsIgnored(p + [c] + dd, now);
  }

  /** The patterns of parseTime on a month name, two day digits and a year. */
  lemma MonthNameDayYearPatterns(p: string, dd: string, yd: string, k: nat, pivot: int)
    requires k < 12 && SpellsEntry(p, MonthNames, MonthShortNames, k)
    requires |dd| == 2 && AllDigits(dd) && 1 <= |yd| <= 9 && AllDigits(yd)
    ensures FirstDate(p + (dd + yd), DatePatterns, pivot) == CheckedDate(DigitsValue(yd), k + 1, DigitsValue(dd), 1)
    ensures ParseDate(p + (dd + yd), MonthNameDay, pivot).None?
    ensures ParseDate(p + (dd + yd), DayOfWeekName, pivot).None?
  {
    MonthSpelling(p, dd + yd, k);
    LetterTextIsNotNumeric(p + (dd + yd), pivot);
    NumberOfDigits(dd, yd, 2);
    NumberOfDigits(yd, [], 9);
    assert yd + [] == yd;
    FirstDateCascade(p + (dd + yd), pivot);
  }

  /** "MMMMddYYYY": the stages of parseTime on a month name, two day digits and a year. */
  lemma MonthNameDayYearTime(p: string, dd: string, yd: string, k: nat, now: DateTime)
    requires ValidDateTime(now) && k < 12 && SpellsEntry(p, MonthNames, MonthShortNames, k)
    requires |dd| == 2 && AllDigits(dd) && 1 <= |yd| <= 9 && AllDigits(yd)
    ensures var y, d := DigitsValue(yd), Date(DigitsValue(yd), k + 1, DigitsValue(dd));
            TimeResult(p + (dd + yd), now)
            == Ok(if 1 <= y <= JodaMaxYear && ValidDate(d) then StartOfDay(now).(date := d) else StartOfDay(now))
  {
    MonthSpelling(p, dd + yd, k);
    assert AllDigits(dd + yd);
    NameAndDigitsArePlain(p, dd + yd);
    NameTextStages(p + (dd + yd), now);
    MonthNameDayYearPatterns(p, dd, yd, k, Pivot(now));
  }

  /**
   * A month name, two day digits and a year of up to nine digits is midnight
   * of that date, or of the current day when there is no such date.
   */
  lemma MonthNameDayYearInput(p: string, dd: string, yd: string, k: nat, now: DateTime)
    requires ValidDateTime(now) && k < 12 && SpellsEntry(p, MonthNames, MonthShortNames, k)
    requires |dd| == 2 && AllDigits(dd) && 1 <= |yd| <= 9 && AllDigits(yd)
    ensures var y, d := DigitsValue(yd), Date(DigitsValue(yd), k + 1, DigitsValue(dd));
            ParseResult(p + (dd + yd), now)
            == Ok(if 1 <= y <= JodaMaxYear && ValidDate(d) then StartOfDay(now).(date := d) else StartOfDay(now))
  {
    MonthSpelling(p, dd + yd, k);
    assert AllDigits(dd + yd);
    NameAndDigitsArePlain(p, dd + yd);
    WordIsNotNumeric(p + (dd + yd));
    ParseOfTimeText(p + (dd + yd), now);
    MonthNameDayYearTime(p, dd, yd, k, now);
  }

  /** A spelling of a weekday name: its key, its letters, and what the name fields read from it. */
  lemma DaySpelling(p: string, k: nat)
    requires k < 7 && SpellsEntry(p, DayNames, DayShortNames, k)
    ensures 3 <= |p| && AllLetters(p) && Key(p) == DayKeys[k]
    ensures TextField(p, DayNames, DayShortNames) == Some(Scan(k + 1, []))
    ensures TextField(p, MonthNames, MonthShortNames).None?
  {
    MonthNameTable();
    DayNameTable();
    if IsSpellingOf(p, DayNames[k]) {
      SpellingKey(p, DayNames[k]);
    } else {
      SpellingKey(p, DayShortNames[k]);
    }
    TextFieldOfName(p, [], DayNames, DayShortNames, DayKeys, k);
    assert p + [] == p;
    MonthAndDayKeysDiffer();
    TextFieldOfStranger(p, MonthNames, MonthShortNames, MonthKeys);
  }

  /** The patterns of parseTime on a weekday name. */
  lemma WeekdayNamePatterns(p: string, k: nat, pivot: int)
    requires k < 7 && SpellsEntry(p, DayNames, DayShortNames, k)
    ensures FirstDate(p, DatePatterns, pivot).None? && ParseDate(p, MonthNameDay, pivot).None?
    ensures ParseDate(p, DayOfWeekName, pivot) == Some(WeekdayInDefaultYear(k + 1))
  {
    DaySpelling(p, k);
    LetterTextIsNotNumeric(p, pivot);
    FirstDateCascade(p, pivot);
  }

  /**
   * "EEE": a weekday name, the k-th from Monday, is midnight of the latest
   * day up to and including the current day that falls on weekday k + 1.
   */
  lemma WeekdayNameInput(p: string, k: nat, now: DateTime)
    requires ValidDateTime(now) && k < 7 && SpellsEntry(p, DayNames, DayShortNames, k)
    ensures ParseResult(p, now) == Ok(StartOfDay(now).(date := RewindToWeekday(now.date, k + 1)))
  {
    DaySpelling(p, k);
    NameAndDigitsArePlain(p, []);
    assert p + [] == p;
    NameTextStages(p, now);
    WeekdayNamePatterns(p, k, Pivot(now));
    WordIsNotNumeric(p);
    ParseOfTimeText(p, now);
  }

  // ---------------------------------------------------------------------
  // Instances

  /** "Jul 30" is midnight of 30 July of the current year. */
  lemma JulyThirtyInput(now: DateTime)
    requires ValidDateTime(now)
    ensures ParseResult("Jul 30", now) == Ok(StartOfDay(now).(date := Date(now.date.year, 7, 30)))
  {
    var p, dd := MonthShortNames[6], TwoDigits(30);
    assert "Jul 30" == p + [' '] + dd;
    MonthNameSeparatorDayInput(p, ' ', dd, 6, now);
    MonthNameDayInput(p, dd, 6, now);
    assert ValidDate(Date(now.date.year, 7, 30));
  }

  /** "July302014" is midnight of 30 July 2014. */
  lemma JulyThirtyYearInput(now: DateTime)
    requires ValidDateTime(now)
    ensures ParseResult("July302014", now) == Ok(StartOfDay(now).(date := Date(2014, 7, 30)))
  {
    var p, dd, yd := MonthNames[6], TwoDigits(30), FourDigits(2014);
    JulyThirtyYearText();
    assert ValidDate(Date(2014, 7, 30));
    MonthNameDayYearInput(p, dd, yd, 6, now);
  }

  lemma JulyThirtyYearText()
    ensures "July302014" == MonthNames[6] + (TwoDigits(30) + FourDigits(2014))
  {
  }

  /** "Sun" is midnight of the latest Sunday up to the current day: its day of the week is 7. */
  lemma SundayInput(now: DateTime)
    requires ValidDateTime(now)
    ensures ParseResult("Sun", now).Ok? && DayOfWeek(ParseResult("Sun", now).value.date) == 7
    ensures ParseResult("Sun", now) == Ok(StartOfDay(now).(date := RewindToWeekday(now.date, 7)))
  {
    WeekdayNameInput(DayShortNames[6], 6, now);
  }
}
