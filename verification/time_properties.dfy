/**
 * What parseTime makes of the words and forms it recognises, stated on the
 * whole input of parse: "now", clock times with "am"/"pm", "noon",
 * "teatime", "midnight" and "today"/"tomorrow"/"yesterday".
 */
module TimeProperties {
  import opened Results
  import opened Text
  import opened Calendar
  import opened Patterns
  import opened DateTimeParser
  import opened PatternProperties
  import opened ParserProperties

  /**
   * An input with no separator, sign or compact form, which is not a number
   * of seconds, goes straight to parseTime.
   */
  lemma ParseOfTimeText(s: string, now: DateTime)
    requires ValidDateTime(now) && NoSeparators(s) && '+' !in s && '-' !in s
    requires (!AllDigits(s) || EightDigitDate(s)) && CompactDateTime(s).None?
    ensures ParseResult(s, now) == TimeResult(s, now)
  {
    NormalizeOfPlainText(s);
  }

  /** Text that starts with a letter is neither numeric nor compact. */
  lemma WordIsNotNumeric(s: string)
    requires s != [] && !IsDigit(s[0])
    ensures !AllDigits(s) && CompactDateTime(s).None?
  {
  }

  /** "now" is the reference instant with seconds and milliseconds cleared. */
  lemma NowInput(now: DateTime)
    requires ValidDateTime(now)
    ensures ParseResult("now", now) == Ok(NowToMinute(now))
  {
    WordIsNotNumeric("now");
    ParseOfTimeText("now", now);
  }

  /** After a recognised keyword nothing is left, and nothing else applies. */
  lemma EmptyRestChangesNothing(t: DateTime, pivot: int)
    requires ValidDateTime(t)
    ensures WeekdayRewind(MonthDay(DateStage(DayKeyword(t, ""), "", DatePatterns, pivot),
                                   ParseDate("", MonthNameDay, pivot)), ParseDate("", DayOfWeekName, pivot)) == t
  {
    NoPatternMatches("", pivot);
  }

  /** A word that parseTime consumes as a time of day, with nothing after it, sets that time on the reference day. */
  lemma TimeWordInput(word: string, hour: int, now: DateTime)
    requires ValidDateTime(now) && 0 <= hour <= 23
    requires word != [] && !IsDigit(word[0]) && NoSeparators(word) && '+' !in word && '-' !in word && ':' !in word
    requires word != "now" && TimeKeyword(Stage(StartOfDay(now), word)) == Stage(StartOfDay(now).(hour := hour), "")
    ensures ParseResult(word, now) == Ok(StartOfDay(now).(hour := hour))
  {
    EmptyRestChangesNothing(StartOfDay(now).(hour := hour), Pivot(now));
    WordIsNotNumeric(word);
    ParseOfTimeText(word, now);
  }

  /** "noon" is 12:00 of the reference day. */
  lemma NoonInput(now: DateTime)
    requires ValidDateTime(now)
    ensures ParseResult("noon", now) == Ok(StartOfDay(now).(hour := 12))
  {
    assert StartsWith("noon", "noon") && "noon"[4..] == "";
    TimeWordInput("noon", 12, now);
  }

  /** "teatime" is 16:00 of the reference day. */
  lemma TeatimeInput(now: DateTime)
    requires ValidDateTime(now)
    ensures ParseResult("teatime", now) == Ok(StartOfDay(now).(hour := 16))
  {
    assert StartsWith("teatime", "teatime") && "teatime"[7..] == "";
    PrefixesClash("teatime", "teatime", "noon", 0);
    TimeWordInput("teatime", 16, now);
  }

  /** "midnight" is 00:00 of the reference day. */
  lemma MidnightInput(now: DateTime)
    requires ValidDateTime(now)
    ensures ParseResult("midnight", now) == Ok(StartOfDay(now))
  {
    assert StartsWith("midnight", "midnight") && "midnight"[8..] == "";
    PrefixesClash("midnight", "midnight", "noon", 0);
    PrefixesClash("midnight", "midnight", "teatime", 0);
    TimeWordInput("midnight", 0, now);
  }

  /** A word parseTime reads only through its day keywords: no digit, sign, separator, ':', time keyword or name. */
  predicate PlainWord(word: string) {
    word != [] && !IsDigit(word[0]) && NoSeparators(word) && '+' !in word && '-' !in word && ':' !in word &&
    word != "now" && !StartsWith(word, "noon") && !StartsWith(word, "teatime") && !StartsWith(word, "midnight") &&
    NoMonthName(word) && NoDayName(word)
  }

  /**
   * A plain word is midnight of the reference day, moved by a day when the
   * word is "tomorrow" or "yesterday".
   */
  lemma PlainWordInput(word: string, now: DateTime)
    requires ValidDateTime(now) && PlainWord(word)
    ensures ParseResult(word, now) == Ok(DayKeyword(StartOfDay(now), word))
  {
    NoPatternMatches(word, Pivot(now));
    assert TimeResult(word, now) == Ok(DayKeyword(StartOfDay(now), word));
    WordIsNotNumeric(word);
    ParseOfTimeText(word, now);
  }

  /** A lower-case word that starts no time keyword and no name is plain. */
  lemma PlainWordByPrefixes(word: string, noon: nat, teatime: nat, midnight: nat)
    requires word != "now" && AllLowerLetters(word) && NoMonthName(word) && NoDayName(word)
    requires noon < 4 && teatime < 7 && midnight < 8
    requires noon < |word| && word[noon] != "noon"[noon]
    requires teatime < |word| && word[teatime] != "teatime"[teatime]
    requires midnight < |word| && word[midnight] != "midnight"[midnight]
    ensures PlainWord(word)
  {
    UnitCharacters(word);
    assert IsLowerLetter(word[0]);
    assert StartsWith(word, word);
    PrefixesClash(word, word, "noon", noon);
    PrefixesClash(word, word, "teatime", teatime);
    PrefixesClash(word, word, "midnight", midnight);
  }

  lemma TomorrowIsNoName()
    ensures NoMonthName("tomorrow") && NoDayName("tomorrow")
  {
  }

  lemma YesterdayIsNoName()
    ensures NoMonthName("yesterday") && NoDayName("yesterday")
  {
  }

  lemma TodayIsNoName()
    ensures NoMonthName("today") && NoDayName("today")
  {
  }

  /** "tomorrow" is midnight of the day after the reference day. */
  lemma TomorrowInput(now: DateTime)
    requires ValidDateTime(now)
    ensures ParseResult("tomorrow", now) == Ok(StartOfDay(now).(date := AddDays(now.date, 1)))
  {
    TomorrowIsNoName();
    PlainWordByPrefixes("tomorrow", 0, 1, 0);
    PlainWordInput("tomorrow", now);
  }

  /** "yesterday" is midnight of the day before the reference day. */
  lemma YesterdayInput(now: DateTime)
    requires ValidDateTime(now)
    ensures ParseResult("yesterday", now) == Ok(StartOfDay(now).(date := AddDays(now.date, -1)))
  {
    YesterdayIsNoName();
    PlainWordByPrefixes("yesterday", 0, 0, 0);
    PlainWordInput("yesterday", now);
  }

  /** "today" is midnight of the reference day. */
  lemma TodayInput(now: DateTime)
    requires ValidDateTime(now)
    ensures ParseResult("today", now) == Ok(StartOfDay(now))
  {
    TodayIsNoName();
    PlainWordByPrefixes("today", 0, 1, 0);
    PlainWordInput("today", now);
  }

  // ---------------------------------------------------------------------
  // A time keyword followed by a word

  /** The three time keywords and the hour each sets. */
  predicate TimeKeywordHour(kw: string, hour: int) {
    (kw == "noon" && hour == 12) || (kw == "teatime" && hour == 16) || (kw == "midnight" && hour == 0)
  }

  /** The keyword stage consumes the keyword and sets its hour. */
  lemma KeywordStage(kw: string, hour: int, w: string, t: DateTime)
    requires TimeKeywordHour(kw, hour)
    ensures TimeKeyword(Stage(t, kw + w)) == Stage(t.(hour := hour, minute := 0), w)
  {
    assert (kw + w)[..|kw|] == kw;
  }

  /** parseTime consumes the keyword, sets its hour, and then reads the rest as a plain word. */
  lemma KeywordThenWordTime(kw: string, hour: int, w: string, now: DateTime)
    requires ValidDateTime(now) && TimeKeywordHour(kw, hour) && PlainWord(w)
    ensures TimeResult(kw + w, now) == Ok(DayKeyword(StartOfDay(now).(hour := hour), w))
  {
    var s := kw + w;
    assert ':' !in s by {
      forall i | 0 <= i < |s|
        ensures s[i] != ':'
      {
        if i >= |kw| {
          assert s[i] == w[i - |kw|];
        }
      }
    }
    KeywordStage(kw, hour, w, StartOfDay(now));
    NoPatternMatches(w, Pivot(now));
  }

  /** The same on the whole input: the keyword and the word may be run together or separated. */
  lemma KeywordThenWordInput(kw: string, hour: int, w: string, now: DateTime)
    requires ValidDateTime(now) && TimeKeywordHour(kw, hour) && PlainWord(w)
    ensures ParseResult(kw + w, now) == Ok(DayKeyword(StartOfDay(now).(hour := hour), w))
  {
    var s := kw + w;
    assert NoSeparators(kw) && AllLowerLetters(kw);
    NoSeparatorsAppend(kw, w);
    assert '+' !in s && '-' !in s by {
      forall i | 0 <= i < |s|
        ensures s[i] != '+' && s[i] != '-'
      {
        if i >= |kw| {
          assert s[i] == w[i - |kw|];
        }
      }
    }
    assert s[0] == kw[0];
    WordIsNotNumeric(s);
    KeywordThenWordTime(kw, hour, w, now);
    ParseOfTimeText(s, now);
  }

  lemma KeywordSeparatorWordInput(kw: string, hour: int, c: char, w: string, now: DateTime)
    requires ValidDateTime(now) && TimeKeywordHour(kw, hour) && PlainWord(w) && IsSeparator(c)
    ensures ParseResult(kw + [c] + w, now) == Ok(DayKeyword(StartOfDay(now).(hour := hour), w))
  {
    assert NoSeparators(kw);
    KeptAfterPlain(kw, c, w);
    KeptCharactersOfPlainText(w);
    NormalizeKeepsNonSeparators(kw + [c] + w);
    SeparatorsIgnored(kw + [c] + w, now);
    KeywordThenWordInput(kw, hour, w, now);
  }

  /** "noon tomorrow" is 12:00 of the next day. */
  lemma NoonTomorrowInput(now: DateTime)
    requires ValidDateTime(now)
    ensures ParseResult("noon tomorrow", now) == Ok(StartOfDay(now).(date := AddDays(now.date, 1), hour := 12))
  {
    TomorrowIsNoName();
    PlainWordByPrefixes("tomorrow", 0, 1, 0);
    assert "noon tomorrow" == "noon" + [' '] + "tomorrow";
    KeywordSeparatorWordInput("noon", 12, ' ', "tomorrow", now);
  }

  // ---------------------------------------------------------------------
  // Clock times

  /** The hour of a clock time as written: one or two digits, at most 23. */
  predicate HourText(hh: string) {
    1 <= |hh| <= 2 && AllDigits(hh) && DigitsValue(hh) <= 23
  }

  /** "H:MM" or "HH:MM", then "", "am" or "pm". */
  function ClockText(hh: string, m: int, suffix: string): string
    requires HourText(hh) && 0 <= m <= 59
  {
    hh + ":" + TwoDigits(m) + suffix
  }

  predicate IsMeridiem(suffix: string) {
    suffix == "" || suffix == "am" || suffix == "pm"
  }

  /**
   * The hour parseTime reads from "H:MM" followed by suffix: "pm" adds 12
   * modulo 24, which moves 1..11 into the afternoon but 12 to 0.
   */
  function ClockHour(h: int, suffix: string): (hour: int)
    requires 0 <= h <= 23
    ensures 0 <= hour <= 23
    ensures suffix == "pm" && h < 12 ==> hour == h + 12
    ensures suffix == "pm" && h == 12 ==> hour == 0
    ensures suffix != "pm" ==> hour == h
  {
    if suffix == "pm" then (h + 12) % 24 else h
  }

  lemma HourTextCharacters(hh: string)
    requires HourText(hh)
    ensures ':' !in hh && NoSeparators(hh) && '+' !in hh && '-' !in hh
  {
  }

  lemma ClockTextShape(hh: string, m: int, suffix: string)
    requires HourText(hh) && 0 <= m <= 59 && IsMeridiem(suffix)
    ensures var t := ClockText(hh, m, suffix);
      && t == hh + ":" + (TwoDigits(m) + suffix)
      && t[..|hh|] == hh && t[|hh|] == ':'
      && t[|hh| + 1..|hh| + 3] == TwoDigits(m) && t[|hh| + 3..] == suffix
  {
  }

  /** The hour and the minute are read back from their text. */
  lemma ClockFieldsOfText(hh: string, m: int, suffix: string)
    requires HourText(hh) && 0 <= m <= 59 && IsMeridiem(suffix)
    ensures var t := ClockText(hh, m, suffix);
      && ':' in t && IndexOf(t, ':') == |hh| && |t| == |hh| + 3 + |suffix|
      && ParseInt(t[..|hh|]) == Ok(DigitsValue(hh))
      && ParseInt(t[|hh| + 1..|hh| + 3]) == Ok(m)
      && t[|hh| + 3..] == suffix
  {
    var t := ClockText(hh, m, suffix);
    HourTextCharacters(hh);
    ClockTextShape(hh, m, suffix);
    IndexOfFirst(t, ':', |hh|);
    ParseSignedOfDigits(hh, IntMin, IntMax);
    ParseSignedOfDigits(TwoDigits(m), IntMin, IntMax);
  }

  /** Java's (hour + 12) % 24 on an hour up to 23. */
  lemma PmArithmetic(h: int)
    requires 0 <= h <= 23
    ensures JavaRem(Wrap32(h + 12), 24) == ClockHour(h, "pm")
  {
  }

  /** The clock stage reads the hour and minute back, and the suffix as "am"/"pm". */
  lemma ClockTimeOfText(hh: string, m: int, suffix: string)
    requires HourText(hh) && 0 <= m <= 59 && IsMeridiem(suffix)
    ensures ':' in ClockText(hh, m, suffix)
    ensures ClockTime(ClockText(hh, m, suffix)) == Ok(Clock(ClockHour(DigitsValue(hh), suffix), m, ""))
  {
    ClockFieldsOfText(hh, m, suffix);
    ClockTimeOfFields(ClockText(hh, m, suffix), |hh|, DigitsValue(hh), m, suffix);
  }

  /** The clock stage on any text whose fields around the first ':' are an hour, a minute and "am"/"pm". */
  lemma ClockTimeOfFields(t: string, i: nat, h: int, m: int, suffix: string)
    requires 0 <= h <= 23 && IsMeridiem(suffix)
    requires ':' in t && IndexOf(t, ':') == i && |t| == i + 3 + |suffix|
    requires ParseInt(t[..i]) == Ok(h) && ParseInt(t[i + 1..i + 3]) == Ok(m) && t[i + 3..] == suffix
    ensures ClockTime(t) == Ok(Clock(ClockHour(h, suffix), m, ""))
  {
    MeridiemSuffix(h, m, suffix);
  }

  /** An "am"/"pm" suffix, or none, sets the hour as ClockHour says and leaves nothing. */
  lemma MeridiemSuffix(h: int, m: int, suffix: string)
    requires 0 <= h <= 23 && IsMeridiem(suffix)
    ensures ClockSuffix(h, m, suffix) == Clock(ClockHour(h, suffix), m, "")
  {
    if suffix == "" {
    } else if suffix == "am" {
      assert suffix[..2] == "am" && suffix[2..] == "";
    } else {
      assert suffix[..2] == "pm" && suffix[2..] == "";
      PmArithmetic(h);
    }
  }

  /** Clock text is not the compact form: no year follows the minutes. */
  lemma ClockTextIsNotCompact(hh: string, m: int, suffix: string)
    requires HourText(hh) && 0 <= m <= 59 && IsMeridiem(suffix)
    ensures CompactDateTime(ClockText(hh, m, suffix)).None?
  {
    ClockTextShape(hh, m, suffix);
    assert ClockText(hh, m, suffix) == hh + (":" + (TwoDigits(m) + suffix));
    CompactNeedsYear(ClockText(hh, m, suffix), hh, TwoDigits(m), suffix);
  }

  /** Hour, ':' and minute followed by neither a digit nor a sign leave the compact form without its year. */
  lemma CompactNeedsYear(t: string, hour: string, minute: string, suffix: string)
    requires t == hour + (":" + (minute + suffix))
    requires 1 <= |hour| <= 2 && AllDigits(hour) && |minute| == 2 && AllDigits(minute)
    requires suffix == [] || (!IsDigit(suffix[0]) && suffix[0] != '-' && suffix[0] != '+')
    ensures CompactDateTime(t).None?
  {
    LeadingDigitsOfDigits(hour, ":" + (minute + suffix), 2);
    assert (":" + (minute + suffix))[1..] == minute + suffix;
    LeadingDigitsOfDigits(minute, suffix, 2);
    assert SignedNumber(suffix, 4) == Number(suffix, 4) == None;
  }

  lemma ClockTextIsPlain(hh: string, m: int, suffix: string)
    requires HourText(hh) && 0 <= m <= 59 && IsMeridiem(suffix)
    ensures var t := ClockText(hh, m, suffix);
      NoSeparators(t) && '+' !in t && '-' !in t && !AllDigits(t)
  {
    HourTextCharacters(hh);
    ClockTextShape(hh, m, suffix);
    var rest := TwoDigits(m) + suffix;
    assert NoSeparators(rest) && '+' !in rest && '-' !in rest by {
      forall i | 0 <= i < |rest|
        ensures IsDigit(rest[i]) || 'a' <= rest[i] <= 'z'
      {
        if i >= 2 {
          assert rest[i] == suffix[i - 2];
        }
      }
    }
    NoSeparatorsAppend(hh, ":");
    NoSeparatorsAppend(hh + ":", rest);
  }

  lemma ClockTimeResult(hh: string, m: int, suffix: string, now: DateTime)
    requires ValidDateTime(now) && HourText(hh) && 0 <= m <= 59 && IsMeridiem(suffix)
    ensures TimeResult(ClockText(hh, m, suffix), now)
         == Ok(StartOfDay(now).(hour := ClockHour(DigitsValue(hh), suffix), minute := m))
  {
    var time := StartOfDay(now).(hour := ClockHour(DigitsValue(hh), suffix), minute := m);
    ClockTimeOfText(hh, m, suffix);
    assert ClockStage(ClockText(hh, m, suffix), StartOfDay(now)) == Ok(Stage(time, ""));
    EmptyRestChangesNothing(time, Pivot(now));
  }

  /**
   * "H:MM" and "H:MMam" (one or two hour digits) are that time of the
   * reference day; "H:MMpm" adds twelve hours modulo 24, so that before 12 it
   * means the afternoon and "12:MMpm" means MM minutes past midnight.
   */
  lemma ClockInput(hh: string, m: int, suffix: string, now: DateTime)
    requires ValidDateTime(now) && HourText(hh) && 0 <= m <= 59 && IsMeridiem(suffix)
    ensures ParseResult(ClockText(hh, m, suffix), now)
         == Ok(StartOfDay(now).(hour := ClockHour(DigitsValue(hh), suffix), minute := m))
  {
    ClockTimeResult(hh, m, suffix, now);
    ClockTextIsNotCompact(hh, m, suffix);
    ClockTextIsPlain(hh, m, suffix);
    ParseOfTimeText(ClockText(hh, m, suffix), now);
  }

  /** A clock time followed by "+N" and a unit is that time of the reference day, moved by the offset. */
  lemma ClockOffsetInput(hh: string, m: int, suffix: string, n: int, unit: string, now: DateTime)
    requires ValidDateTime(now) && HourText(hh) && 0 <= m <= 59 && IsMeridiem(suffix)
    requires IntMin <= n <= IntMax && unit != [] && AllLowerLetters(unit)
    ensures ParseResult(ClockText(hh, m, suffix) + "+" + ShowInt(n) + unit, now)
         == Ok(ApplyUnit(StartOfDay(now).(hour := ClockHour(DigitsValue(hh), suffix), minute := m), unit, n))
  {
    ClockTimeResult(hh, m, suffix, now);
    ClockTextIsPlain(hh, m, suffix);
    ParseAppliesOffset(ClockText(hh, m, suffix), n, unit, now);
  }

  /** "12:00+1d" is noon of the reference day, one day on. */
  lemma ClockOffsetExample(now: DateTime)
    requires ValidDateTime(now)
    ensures ParseResult("12:00+1d", now) == Ok(ApplyUnit(StartOfDay(now).(hour := 12, minute := 0), "d", 1))
  {
    assert ClockText(TwoDigits(12), 0, "") + "+" + ShowInt(1) + "d" == "12:00+1d";
    ClockOffsetInput(TwoDigits(12), 0, "", 1, "d", now);
  }

  /** An hour of 24 or more passes the parse but not withHourOfDay, which throws. */
  lemma LateHourThrows(hh: string, m: int, now: DateTime)
    requires ValidDateTime(now) && |hh| == 2 && AllDigits(hh) && 24 <= DigitsValue(hh) && 0 <= m <= 59
    ensures TimeResult(hh + ":" + TwoDigits(m), now) == Thrown(IllegalFieldValue)
  {
    LateHourClock(hh, m);
    assert ClockStage(hh + ":" + TwoDigits(m), StartOfDay(now)) == Thrown(IllegalFieldValue);
  }

  lemma LateHourClock(hh: string, m: int)
    requires |hh| == 2 && AllDigits(hh) && 0 <= m <= 59
    ensures ':' in hh + ":" + TwoDigits(m)
    ensures ClockTime(hh + ":" + TwoDigits(m)) == Ok(Clock(DigitsValue(hh), m, ""))
  {
    var t := hh + ":" + TwoDigits(m);
    assert t[..2] == hh && t[2] == ':' && t[3..5] == TwoDigits(m);
    IndexOfFirst(t, ':', 2);
    ParseSignedOfDigits(hh, IntMin, IntMax);
    ParseSignedOfDigits(TwoDigits(m), IntMin, IntMax);
  }

  /** "25:00+1d": the base throws in withHourOfDay, so the whole input throws before the offset is read. */
  lemma LateHourOffsetExample(now: DateTime)
    requires ValidDateTime(now)
    ensures ParseResult("25:00+1d", now) == Thrown(IllegalFieldValue)
  {
    var hh := [DigitChar(2), DigitChar(5)];
    LateHourText(hh);
    LateHourThrows(hh, 0, now);
    ParseAppliesOffset(hh + ":" + TwoDigits(0), 1, "d", now);
  }

  lemma LateHourText(hh: string)
    requires hh == [DigitChar(2), DigitChar(5)]
    ensures |hh| == 2 && AllDigits(hh) && DigitsValue(hh) == 25
    ensures NoSeparators(hh + ":" + TwoDigits(0)) && '+' !in hh + ":" + TwoDigits(0)
    ensures hh + ":" + TwoDigits(0) + "+" + ShowInt(1) + "d" == "25:00+1d"
  {
    assert hh[..1] == [DigitChar(2)];
    DigitsAreNotSeparators(hh);
    PlainCharacter(':');
    DigitsAreNotSeparators(TwoDigits(0));
    NoSeparatorsAppend(hh, ":");
    NoSeparatorsAppend(hh + ":", TwoDigits(0));
  }

  /** "12:24" is 12:24 of the reference day. */
  lemma HourMinuteInput(now: DateTime)
    requires ValidDateTime(now)
    ensures ParseResult("12:24", now) == Ok(StartOfDay(now).(hour := 12, minute := 24))
  {
    assert ClockText(TwoDigits(12), 24, "") == "12:24";
    ClockInput(TwoDigits(12), 24, "", now);
  }

  /** "9:13am" is 9:13 of the reference day. */
  lemma HourMinuteAmInput(now: DateTime)
    requires ValidDateTime(now)
    ensures ParseResult("9:13am", now) == Ok(StartOfDay(now).(hour := 9, minute := 13))
  {
    var nine := [DigitChar(9)];
    assert nine[..0] == [];
    assert HourText(nine) && DigitsValue(nine) == 9;
    assert ClockText(nine, 13, "am") == "9:13am";
    ClockInput(nine, 13, "am", now);
  }

  /** "09:13pm" is 21:13 of the reference day. */
  lemma HourMinutePmInput(now: DateTime)
    requires ValidDateTime(now)
    ensures ParseResult("09:13pm", now) == Ok(StartOfDay(now).(hour := 21, minute := 13))
  {
    assert ClockText(TwoDigits(9), 13, "pm") == "09:13pm";
    ClockInput(TwoDigits(9), 13, "pm", now);
  }
}
