# Blueflood DateTimeParser in Dafny

This project models `DateTimeParser`, the free-form time-expression parser
of Blueflood's HTTP query layer, and proves properties of it. The parser
turns query strings such as `now`, `yesterday`, `noon`, `9:13am`,
`12/30/14`, `20141230`, `Jul 30`, `Sun`, `now-1d` or `10:55 2014 12 20`
into an instant. It runs in a fixed order:

1. It drops the cosmetic separators ` `, `,` and `_`.
2. All-digit text is an `yyyyMMdd` date or a number of epoch seconds.
3. It tries the compact `HH:mmyyyyMMdd` form on the whole text, before
   any offset is split off.
4. It splits off an offset at the first `+`, or else at the first `-`.
5. parseTime reads the base: a clock time with `am`/`pm`, `noon`,
   `teatime` or `midnight`, `today`/`tomorrow`/`yesterday`, a full date,
   a month and day, or a weekday name.
6. parseOffset adds a count of seconds, minutes, hours, days, months or
   years.

Files, in dependency order:

- `results.dfy` (`Results`): `Option`, and `Outcome`, a value or the Java
  exception that escapes `parse`.
- `text.dfy` (`Text`): the Java primitives. These are digits,
  `Integer.parseInt`/`Long.parseLong`, 32/64-bit wrap-around, the
  truncating `%`, `indexOf`, `startsWith` and the separator removal.
- `calendar.dfy` (`Calendar`): a proleptic Gregorian calendar in one fixed
  zone. It has day numbers, weekdays, instants as milliseconds, and Joda's
  `plusSeconds` … `plusYears`.
- `patterns.dfy` (`Patterns`): the Joda formatters the parser uses. Each
  is an explicit recogniser, and `ParseDate` models `parseDate`.
- `parser.dfy` (`DateTimeParser`): the parser itself.
  - `parse` is the method `Parse`, proved equal to the function
    `ParseResult`.
  - `parseTime` is the method `ParseTime`, proved equal to `TimeResult`.
    Each of its steps is a method of its own. The `for` loop over the date
    patterns is `ApplyFirstDate`, specified by `FirstDate`. The `while`
    loop that steps back one day at a time is `RewindDays`, specified by
    the closed form `RewindToWeekday`.
  - `parseOffset` is the pure function `ParseOffset`.
- `properties.dfy`, `pattern_properties.dfy`, `time_properties.dfy`,
  `date_properties.dfy` and `name_properties.dfy`: what `parse` does on
  whole inputs.

The current time is the parameter `now`, and the model is a function of
the input and `now`. `now` also fixes the two-digit-year pivot
(`now.year - 30`). A Java exception that leaves `parse` is the outcome
`Thrown(e)`. An exception the parser catches becomes "no match", and the
next step runs.

Where the tests and the code disagree, the model follows the code:

- `""` is numeric for `StringUtils.isNumeric` of commons-lang 2, so
  `Long.parseLong("")` throws. The `""` case of parseTime (line 87) is only
  reached for an empty base before an offset, such as `+1d`.
- `now + 06:00` splits into the base `now` and the offset `06:00`. That
  offset does not match the count-and-unit pattern, so it is ignored
  (`TimeZoneSuffixIgnored`). The test expects six hours to be added.
- All-digit input is read as seconds and multiplied by 1000 (line 22). The
  unix-timestamp test compares it with `new DateTime(seconds)`.
- `now` clears the seconds and milliseconds, and `today`, `tomorrow` and
  `yesterday` start from midnight. The tests compare these with the current
  time, moved by a day. `noon`, `teatime` and `midnight` agree with the
  tests.

The year field of `HH:mmyyyyMMdd` is signed. The model reads it as the
Joda-Time `NumberFormatter.parseInto` that advances past a leading `+`
before it widens its digit limit by one: a `-` is then followed by at most
four digits and a `+` by at most five. Because the compact form is tried
before the split at `+`, `10:55+20141111` is the compact instant 10:55 on
1 November of the year 20141 (`PlusBeforeYearIsCompact`), not 10:55 plus an
offset. Joda-Time releases that count the `+` inside the widened limit read
at most four digits after either sign; under them the same text is 10:55 on
11 November 2014 (see "## Left out").

The pattern `MM/dd/YYYY` is never the one that matches. Its lenient
predecessor `MM/dd/YY` reads every text it reads, to the same date when the
year has three digits or more (`LongYearIsShadowed`).

## Model

| member | source | states |
|---|---|---|
| Text.NormalizeKeepsNonSeparators | blueflood-http/src/main/java/com/rackspacecloud/blueflood/utils/DateTimeParser.java:14 | the three chained `replace` calls give exactly the non-separator characters in their original order (reference definition `KeptCharacters`) |
| Text.NormalizeIdempotent | blueflood-http/src/main/java/com/rackspacecloud/blueflood/utils/DateTimeParser.java:14 | normalising twice is normalising once |
| Text.SeparatorsInterchangeable | blueflood-http/src/main/java/com/rackspacecloud/blueflood/utils/DateTimeParser.java:14 | swapping one separator for another never changes the normalised text |
| Text.Normalize | blueflood-http/src/main/java/com/rackspacecloud/blueflood/utils/DateTimeParser.java:14 | the normalised text holds exactly the characters of the input that are not separators |
| Text.ParseSigned | blueflood-http/src/main/java/com/rackspacecloud/blueflood/utils/DateTimeParser.java:61 | `parseInt`/`parseLong` give a value within the type's range or throw NumberFormatException; empty text, a bare sign and any non-digit after the optional sign throw; digits with an optional `+` or `-` give their signed value exactly when it is in range |
| Text.ParseSignedOfShowInt | blueflood-http/src/main/java/com/rackspacecloud/blueflood/utils/DateTimeParser.java:61 | parsing the decimal text of any in-range integer gives it back |
| Text.Wrap64 | blueflood-http/src/main/java/com/rackspacecloud/blueflood/utils/DateTimeParser.java:22 | the `long` product is congruent to the true product modulo 2^64, within the `long` range, and exact when it fits |
| Text.Wrap32 | blueflood-http/src/main/java/com/rackspacecloud/blueflood/utils/DateTimeParser.java:103 | the `int` sum `hour + 12` is in the `int` range, congruent to the true sum modulo 2^32, and exact when it fits |
| Text.JavaRem | blueflood-http/src/main/java/com/rackspacecloud/blueflood/utils/DateTimeParser.java:103 | Java's `%` has the sign of the dividend, magnitude below the divisor, and differs from the dividend by a multiple of the divisor |
| Text.IndexOf | blueflood-http/src/main/java/com/rackspacecloud/blueflood/utils/DateTimeParser.java:93 | `indexOf` returns a position of the character with no earlier occurrence |
| Calendar.AddDays | blueflood-http/src/main/java/com/rackspacecloud/blueflood/utils/DateTimeParser.java:126-128 | moving n days gives a real date whose day number is n more |
| Calendar.FromMillisOfToMillis | blueflood-http/src/main/java/com/rackspacecloud/blueflood/utils/DateTimeParser.java:22 | an instant converted to epoch milliseconds and back is the same instant (`FromMillis` itself ensures the other direction) |
| Calendar.PlusSeconds | blueflood-http/src/main/java/com/rackspacecloud/blueflood/utils/DateTimeParser.java:66 | `plusSeconds(n)` moves the instant by n seconds of milliseconds |
| Calendar.PlusMinutes | blueflood-http/src/main/java/com/rackspacecloud/blueflood/utils/DateTimeParser.java:68 | `plusMinutes(n)` moves the instant by n minutes |
| Calendar.PlusHours | blueflood-http/src/main/java/com/rackspacecloud/blueflood/utils/DateTimeParser.java:70 | `plusHours(n)` moves the instant by n hours |
| Calendar.PlusDaysIsFixedDuration | blueflood-http/src/main/java/com/rackspacecloud/blueflood/utils/DateTimeParser.java:72 | in the fixed zone `plusDays(n)` is exactly n times 24 hours |
| Calendar.PlusMonths | blueflood-http/src/main/java/com/rackspacecloud/blueflood/utils/DateTimeParser.java:74 | `plusMonths(n)` advances the month count by n, keeps the time of day, and clamps the day to the new month's length |
| Calendar.PlusYears | blueflood-http/src/main/java/com/rackspacecloud/blueflood/utils/DateTimeParser.java:76 | `plusYears(n)` advances the year by n and keeps the month and time of day |
| Calendar.PlusYearsIsTwelveMonths | blueflood-http/src/main/java/com/rackspacecloud/blueflood/utils/DateTimeParser.java:76 | adding n years is adding 12n months |
| Patterns.CompactDateTime | blueflood-http/src/main/java/com/rackspacecloud/blueflood/utils/DateTimeParser.java:26-27 | a match of `HH:mmyyyyMMdd` is a valid instant with zero seconds, and only text containing ':' matches; which instant the text denotes is stated by `CompactDateTimeOfText` and `PlusYearCompactDateTime` |
| Patterns.PivotYear | blueflood-http/src/main/java/com/rackspacecloud/blueflood/utils/DateTimeParser.java:133 | a two-digit year becomes the year with those last digits in the window [pivot-50, pivot+49] |
| Patterns.LenientYear | blueflood-http/src/main/java/com/rackspacecloud/blueflood/utils/DateTimeParser.java:133 | the lenient year field reads all-digit text, and a two-digit year becomes the year with those last two digits within 50 years of the pivot |
| Patterns.WeekdayInDefaultYear | blueflood-http/src/main/java/com/rackspacecloud/blueflood/utils/DateTimeParser.java:155-156 | `EEE` parses to a real date that falls on the named weekday |
| Patterns.ParseDate | blueflood-http/src/main/java/com/rackspacecloud/blueflood/utils/DateTimeParser.java:171-173 | every date a pattern parses is a real date |
| DateTimeParser.EpochSeconds | blueflood-http/src/main/java/com/rackspacecloud/blueflood/utils/DateTimeParser.java:22 | throws NumberFormatException exactly for empty text or a value beyond `Long.MAX_VALUE`; otherwise the instant is the wrapped product of the seconds and 1000 |
| DateTimeParser.SplitOffset | blueflood-http/src/main/java/com/rackspacecloud/blueflood/utils/DateTimeParser.java:33-47 | '+' wins over '-', the split is at the first one, base and offset rebuild the text, the '-' stays on the offset, and there is no offset when neither sign occurs |
| DateTimeParser.ApplyUnit | blueflood-http/src/main/java/com/rackspacecloud/blueflood/utils/DateTimeParser.java:65-79 | adding a count in any unit to a valid instant gives a valid instant (what each unit adds is stated by `FixedLengthUnits` and `CalendarUnits`) |
| DateTimeParser.CountLength | blueflood-http/src/main/java/com/rackspacecloud/blueflood/utils/DateTimeParser.java:56-61 | the count group is an optional '-' followed by digits, and it stops only at the end or at a non-digit (the group is greedy) |
| DateTimeParser.ParseOffset | blueflood-http/src/main/java/com/rackspacecloud/blueflood/utils/DateTimeParser.java:53-82 | an empty or non-matching offset leaves the base unchanged; it throws exactly when the count does not parse as an int; the result stays valid |
| DateTimeParser.ClockTime | blueflood-http/src/main/java/com/rackspacecloud/blueflood/utils/DateTimeParser.java:90-108 | clock reading throws only NumberFormat or IndexOutOfBounds, and consumes at least the ':' and two minute characters |
| DateTimeParser.TimeKeyword | blueflood-http/src/main/java/com/rackspacecloud/blueflood/utils/DateTimeParser.java:112-121 | "noon", "teatime" and "midnight" at the start set 12:00, 16:00 and 00:00 and are consumed, the date, seconds and milliseconds are kept, and text starting with no keyword is left alone |
| DateTimeParser.DayKeyword | blueflood-http/src/main/java/com/rackspacecloud/blueflood/utils/DateTimeParser.java:123-131 | the day number moves by +1 for "tomorrow", -1 for "yesterday" and 0 otherwise, and the time of day is kept |
| DateTimeParser.FirstDate | blueflood-http/src/main/java/com/rackspacecloud/blueflood/utils/DateTimeParser.java:133-143 | the result is the date of a pattern that matches while none before it does, and it is None exactly when no pattern matches |
| DateTimeParser.DateStage | blueflood-http/src/main/java/com/rackspacecloud/blueflood/utils/DateTimeParser.java:133-143 | the date stage keeps the time of day, sets the date of the first matching pattern, and changes nothing when no pattern matches |
| DateTimeParser.MonthDay | blueflood-http/src/main/java/com/rackspacecloud/blueflood/utils/DateTimeParser.java:145-152 | `MMMMdd` sets the parsed month and day in the current year when that date exists and otherwise changes nothing; the time of day is kept |
| DateTimeParser.WeekdayGap | blueflood-http/src/main/java/com/rackspacecloud/blueflood/utils/DateTimeParser.java:157-158 | the number of days the loop steps back is below 7 and zero exactly when the weekday already matches |
| DateTimeParser.RewindToWeekday | blueflood-http/src/main/java/com/rackspacecloud/blueflood/utils/DateTimeParser.java:154-159 | the rewound date falls on the requested weekday, at most 6 days before and never after the start |
| DateTimeParser.RewindIsLatest | blueflood-http/src/main/java/com/rackspacecloud/blueflood/utils/DateTimeParser.java:157-158 | no later date up to the start falls on that weekday |
| DateTimeParser.Pivot | blueflood-http/src/main/java/com/rackspacecloud/blueflood/utils/DateTimeParser.java:133 | the two-digit-year window of the current time spans 80 years before to 19 years after the current year |
| DateTimeParser.WeekdayRewind | blueflood-http/src/main/java/com/rackspacecloud/blueflood/utils/DateTimeParser.java:154-162 | the weekday step keeps the time of day and changes nothing when the text is no weekday name |
| DateTimeParser.ClockStage | blueflood-http/src/main/java/com/rackspacecloud/blueflood/utils/DateTimeParser.java:90-110 | the clock stage keeps the date, seconds and milliseconds |
| DateTimeParser.TimeResult | blueflood-http/src/main/java/com/rackspacecloud/blueflood/utils/DateTimeParser.java:84-169 | parseTime gives a valid instant with zero seconds, and throws only on text with a ':' |
| DateTimeParser.ParseTime | blueflood-http/src/main/java/com/rackspacecloud/blueflood/utils/DateTimeParser.java:84-169 | the step-by-step parseTime equals the composition of its stages |
| DateTimeParser.ReadClockTime | blueflood-http/src/main/java/com/rackspacecloud/blueflood/utils/DateTimeParser.java:90-110 | the clock-time code equals `ClockStage` |
| DateTimeParser.ReadClockSuffix | blueflood-http/src/main/java/com/rackspacecloud/blueflood/utils/DateTimeParser.java:98-106 | the "am"/"pm" step leaves exactly the hour and the text `ClockSuffix` gives: "am" is dropped, "pm" is dropped and adds 12 modulo 24, a text shorter than two characters is kept |
| DateTimeParser.ApplyTimeKeyword | blueflood-http/src/main/java/com/rackspacecloud/blueflood/utils/DateTimeParser.java:112-121 | the keyword code equals `TimeKeyword` |
| DateTimeParser.ApplyDayKeyword | blueflood-http/src/main/java/com/rackspacecloud/blueflood/utils/DateTimeParser.java:123-131 | the day-word code equals `DayKeyword` |
| DateTimeParser.ApplyFirstDate | blueflood-http/src/main/java/com/rackspacecloud/blueflood/utils/DateTimeParser.java:133-143 | the loop with `break` sets the date of the first matching pattern, as `DateStage` |
| DateTimeParser.ApplyMonthDay | blueflood-http/src/main/java/com/rackspacecloud/blueflood/utils/DateTimeParser.java:145-152 | the `MMMMdd` step equals `MonthDay`, an impossible day in the current year being caught |
| DateTimeParser.ApplyWeekday | blueflood-http/src/main/java/com/rackspacecloud/blueflood/utils/DateTimeParser.java:154-162 | the `EEE` step equals `WeekdayRewind` |
| DateTimeParser.RewindDays | blueflood-http/src/main/java/com/rackspacecloud/blueflood/utils/DateTimeParser.java:157-158 | the day-by-day loop stops on `RewindToWeekday` and changes nothing but the date |
| DateTimeParser.PreviousDayGap | blueflood-http/src/main/java/com/rackspacecloud/blueflood/utils/DateTimeParser.java:157-158 | each step back brings the date one day closer to the weekday |
| DateTimeParser.ParseResult | blueflood-http/src/main/java/com/rackspacecloud/blueflood/utils/DateTimeParser.java:13-51 | every instant parse returns is valid |
| DateTimeParser.Parse | blueflood-http/src/main/java/com/rackspacecloud/blueflood/utils/DateTimeParser.java:13-51 | the step-by-step parse equals `ParseResult` |
| ParserProperties.SeparatorsIgnored | blueflood-http/src/main/java/com/rackspacecloud/blueflood/utils/DateTimeParser.java:14 | parse gives the same on the text and on its normalised form |
| ParserProperties.SeparatorsInterchangeableInParse | blueflood-http/src/main/java/com/rackspacecloud/blueflood/utils/DateTimeParser.java:14 | "10:55 2014 12 20" and "10:55_2014_12_20" parse alike: any separator may replace any other |
| ParserProperties.BlankInputThrows | blueflood-http/src/main/java/com/rackspacecloud/blueflood/utils/DateTimeParser.java:14-22 | text of separators only (the empty text included) throws NumberFormatException |
| ParserProperties.EpochSecondsRoundTrip | blueflood-http/src/main/java/com/rackspacecloud/blueflood/utils/DateTimeParser.java:15-23 | the decimal text of n seconds, not an 8-digit date, is the instant at n*1000 milliseconds |
| ParserProperties.EpochSecondsOverflowThrows | blueflood-http/src/main/java/com/rackspacecloud/blueflood/utils/DateTimeParser.java:22 | digits beyond `Long.MAX_VALUE` throw NumberFormatException |
| ParserProperties.CompactIndependentOfNow | blueflood-http/src/main/java/com/rackspacecloud/blueflood/utils/DateTimeParser.java:25-31 | a compact `HH:mmyyyyMMdd` input gives its own instant whatever the current time |
| ParserProperties.CompactDateTimeOfText | blueflood-http/src/main/java/com/rackspacecloud/blueflood/utils/DateTimeParser.java:26-27 | the `HH:mmyyyyMMdd` text of any time of day and date of a four-digit year is read back as exactly that instant |
| ParserProperties.CompactInput | blueflood-http/src/main/java/com/rackspacecloud/blueflood/utils/DateTimeParser.java:13-31 | that text is parsed to exactly that instant |
| ParserProperties.SeparatedCompactInput | blueflood-http/src/main/java/com/rackspacecloud/blueflood/utils/DateTimeParser.java:14-31 | the same text with any separators between the time, year, month and day is parsed to the same instant |
| ParserProperties.CompactWithSeparators | blueflood-http/src/main/java/com/rackspacecloud/blueflood/utils/DateTimeParser.java:14-31 | "10:55 2014 12 20" and "10:55_2014_12_20" are 10:55 on 20 December 2014 |
| ParserProperties.PlusYearCompactDateTime | blueflood-http/src/main/java/com/rackspacecloud/blueflood/utils/DateTimeParser.java:26-27 | a `+` before a five-digit year is read by the signed year field as that year (the `+`-skipping Joda reading; see "## Left out") |
| ParserProperties.PlusYearInput | blueflood-http/src/main/java/com/rackspacecloud/blueflood/utils/DateTimeParser.java:25-34 | "HH:mm+" with a five-digit year, a month and a day is the compact instant, read before any split at `+` |
| ParserProperties.PlusBeforeYearIsCompact | blueflood-http/src/main/java/com/rackspacecloud/blueflood/utils/DateTimeParser.java:25-40 | "10:55+20141111" is 10:55 on 1 November 20141, not an offset, under the `+`-skipping Joda reading |
| ParserProperties.OffsetRoundTrip | blueflood-http/src/main/java/com/rackspacecloud/blueflood/utils/DateTimeParser.java:53-82 | an offset written as an int and a unit applies exactly that count in that unit |
| ParserProperties.MissingCountThrows | blueflood-http/src/main/java/com/rackspacecloud/blueflood/utils/DateTimeParser.java:61 | a unit with no digits, with or without '-', throws NumberFormatException |
| ParserProperties.MatchesOffsetIsRegex | blueflood-http/src/main/java/com/rackspacecloud/blueflood/utils/DateTimeParser.java:56-59 | an offset matches the model's test exactly when it splits into an optional '-' with digits followed by lower-case letters, as `(-?\d*)([a-z]*)` matches |
| ParserProperties.CountSplitIsGreedy | blueflood-http/src/main/java/com/rackspacecloud/blueflood/utils/DateTimeParser.java:56-61 | every such split puts the count boundary where `CountLength` does, so the count group is unique |
| ParserProperties.FixedLengthUnits | blueflood-http/src/main/java/com/rackspacecloud/blueflood/utils/DateTimeParser.java:65-72 | units starting with s, min, h and d move the instant by count seconds, minutes, hours and days |
| ParserProperties.CalendarUnits | blueflood-http/src/main/java/com/rackspacecloud/blueflood/utils/DateTimeParser.java:73-79 | "mon…" adds months, "y…" adds years, and any other unit leaves the base unchanged |
| ParserProperties.SplitAtPlus | blueflood-http/src/main/java/com/rackspacecloud/blueflood/utils/DateTimeParser.java:34-37 | splitting at the first '+' gives the text before it and the text after it |
| ParserProperties.SplitAtMinus | blueflood-http/src/main/java/com/rackspacecloud/blueflood/utils/DateTimeParser.java:41-44 | without '+', splitting at the first '-' keeps the '-' on the offset |
| ParserProperties.CompactEndsInDigit | blueflood-http/src/main/java/com/rackspacecloud/blueflood/utils/DateTimeParser.java:26-27 | a text the compact form reads ends with a digit of the day, so a text ending in a unit letter is never compact |
| ParserProperties.ParseOfOffsetText | blueflood-http/src/main/java/com/rackspacecloud/blueflood/utils/DateTimeParser.java:33-47 | text that is neither numeric nor compact goes to parseTime on the base, clock times included; a throw from parseTime escapes, and otherwise parseOffset reads the rest |
| ParserProperties.ParseAppliesOffset | blueflood-http/src/main/java/com/rackspacecloud/blueflood/utils/DateTimeParser.java:34-40 | "base+Nunit" for any int N is parseTime of the base moved by N units, or the base's exception; a base without ':' never throws |
| ParserProperties.ParseAppliesNegativeOffset | blueflood-http/src/main/java/com/rackspacecloud/blueflood/utils/DateTimeParser.java:41-47 | "base-Nunit" for N up to 2^31 is parseTime of the base moved back by N units, or the base's exception; a base without ':' never throws |
| ParserProperties.ColonOffsetIsIgnored | blueflood-http/src/main/java/com/rackspacecloud/blueflood/utils/DateTimeParser.java:56-59 | an offset containing ':' does not match and leaves the base unchanged |
| ParserProperties.TimeZoneSuffixIgnored | blueflood-http/src/main/java/com/rackspacecloud/blueflood/utils/DateTimeParser.java:34-40 | "now+06:00" and similar time-zone suffixes give parseTime's result for the base alone |
| PatternProperties.TextFieldAvoids | blueflood-http/src/main/java/com/rackspacecloud/blueflood/utils/DateTimeParser.java:171-173 | a name field finds nothing in text whose first two letters start no name (the negative half of `TextFieldOfName`) |
| PatternProperties.NoPatternMatches | blueflood-http/src/main/java/com/rackspacecloud/blueflood/utils/DateTimeParser.java:171-173 | empty text, and text that starts with neither a digit nor a name, matches none of the six date patterns |
| PatternProperties.TextFieldOfName | blueflood-http/src/main/java/com/rackspacecloud/blueflood/utils/DateTimeParser.java:146-147 | a month or weekday name, as written, lower-cased or upper-cased, in full or short, followed by a non-letter, is read as its 1-based index and leaves what follows |
| PatternProperties.TextFieldOfStranger | blueflood-http/src/main/java/com/rackspacecloud/blueflood/utils/DateTimeParser.java:146-147 | text whose first three letters are no entry's is read by no name field |
| TimeProperties.ParseOfTimeText | blueflood-http/src/main/java/com/rackspacecloud/blueflood/utils/DateTimeParser.java:48-50 | with no sign, no number and no compact form, parse is parseTime |
| TimeProperties.NowInput | blueflood-http/src/main/java/com/rackspacecloud/blueflood/utils/DateTimeParser.java:87-88 | "now" is the current time with seconds and milliseconds zero |
| TimeProperties.TimeWordInput | blueflood-http/src/main/java/com/rackspacecloud/blueflood/utils/DateTimeParser.java:112-121 | a time keyword on its own sets that hour on the current day |
| TimeProperties.NoonInput | blueflood-http/src/main/java/com/rackspacecloud/blueflood/utils/DateTimeParser.java:112-114 | "noon" is 12:00 of the current day |
| TimeProperties.TeatimeInput | blueflood-http/src/main/java/com/rackspacecloud/blueflood/utils/DateTimeParser.java:115-117 | "teatime" is 16:00 of the current day |
| TimeProperties.MidnightInput | blueflood-http/src/main/java/com/rackspacecloud/blueflood/utils/DateTimeParser.java:118-120 | "midnight" is 00:00 of the current day |
| TimeProperties.PlainWordInput | blueflood-http/src/main/java/com/rackspacecloud/blueflood/utils/DateTimeParser.java:123-131 | a word that starts no keyword or name is midnight of the current day, moved by the day keyword |
| TimeProperties.TodayInput | blueflood-http/src/main/java/com/rackspacecloud/blueflood/utils/DateTimeParser.java:123-124 | "today" is midnight of the current day |
| TimeProperties.TomorrowInput | blueflood-http/src/main/java/com/rackspacecloud/blueflood/utils/DateTimeParser.java:125-126 | "tomorrow" is midnight of the next day |
| TimeProperties.YesterdayInput | blueflood-http/src/main/java/com/rackspacecloud/blueflood/utils/DateTimeParser.java:127-128 | "yesterday" is midnight of the previous day |
| TimeProperties.KeywordStage | blueflood-http/src/main/java/com/rackspacecloud/blueflood/utils/DateTimeParser.java:112-121 | a text starting with "noon", "teatime" or "midnight" gets 12:00, 16:00 or 00:00 and the rest after the word is read on |
| TimeProperties.KeywordThenWordInput | blueflood-http/src/main/java/com/rackspacecloud/blueflood/utils/DateTimeParser.java:112-131 | a time keyword followed by a plain word is that hour of the current day, moved by a day for "tomorrow" or "yesterday" |
| TimeProperties.KeywordSeparatorWordInput | blueflood-http/src/main/java/com/rackspacecloud/blueflood/utils/DateTimeParser.java:14-131 | the same with a separator between the keyword and the word |
| TimeProperties.NoonTomorrowInput | blueflood-http/src/main/java/com/rackspacecloud/blueflood/utils/DateTimeParser.java:112-131 | "noon tomorrow" is 12:00 of the next day |
| TimeProperties.ClockHour | blueflood-http/src/main/java/com/rackspacecloud/blueflood/utils/DateTimeParser.java:100-105 | "pm" adds 12 to hours below 12 and turns 12 into 0, and any other suffix keeps the hour |
| TimeProperties.MeridiemSuffix | blueflood-http/src/main/java/com/rackspacecloud/blueflood/utils/DateTimeParser.java:98-106 | for hours 0-23, no suffix, "am" and "pm" each set the hour `ClockHour` gives and consume the whole suffix |
| TimeProperties.ClockTimeOfText | blueflood-http/src/main/java/com/rackspacecloud/blueflood/utils/DateTimeParser.java:90-108 | "H:MM", "H:MMam" and "H:MMpm" are read back as hour, minute and nothing left |
| TimeProperties.ClockTextIsNotCompact | blueflood-http/src/main/java/com/rackspacecloud/blueflood/utils/DateTimeParser.java:25-31 | a clock time alone is not the compact form |
| TimeProperties.ClockInput | blueflood-http/src/main/java/com/rackspacecloud/blueflood/utils/DateTimeParser.java:90-110 | "H:MM" or "HH:MM" with an optional am/pm is that hour (pm applied) and minute on the current day, seconds zero |
| TimeProperties.HourMinuteInput | blueflood-http/src/main/java/com/rackspacecloud/blueflood/utils/DateTimeParser.java:90-110 | "12:24" is 12:24 of the current day |
| TimeProperties.HourMinuteAmInput | blueflood-http/src/main/java/com/rackspacecloud/blueflood/utils/DateTimeParser.java:90-110 | "9:13am" is 09:13 of the current day |
| TimeProperties.HourMinutePmInput | blueflood-http/src/main/java/com/rackspacecloud/blueflood/utils/DateTimeParser.java:90-110 | "09:13pm" is 21:13 of the current day |
| TimeProperties.ClockOffsetInput | blueflood-http/src/main/java/com/rackspacecloud/blueflood/utils/DateTimeParser.java:33-40 | a clock time followed by "+N" and a unit is that time of the current day moved by N units |
| TimeProperties.ClockOffsetExample | blueflood-http/src/main/java/com/rackspacecloud/blueflood/utils/DateTimeParser.java:33-40 | "12:00+1d" is noon of the current day moved on by one day |
| TimeProperties.LateHourThrows | blueflood-http/src/main/java/com/rackspacecloud/blueflood/utils/DateTimeParser.java:109 | a two-digit hour of 24 or more is parsed and then rejected by withHourOfDay with IllegalFieldValue |
| TimeProperties.LateHourOffsetExample | blueflood-http/src/main/java/com/rackspacecloud/blueflood/utils/DateTimeParser.java:33-40 | "25:00+1d" throws IllegalFieldValue from its base before the offset is read |
| DateProperties.FirstDateCascade | blueflood-http/src/main/java/com/rackspacecloud/blueflood/utils/DateTimeParser.java:133-143 | the patterns are tried in the order MM/dd/YY, MM/dd/YYYY, YYYYMMdd, MMMMddYYYY |
| DateProperties.NumericTextTime | blueflood-http/src/main/java/com/rackspacecloud/blueflood/utils/DateTimeParser.java:133-162 | text starting with a digit and without ':' is midnight of the current day, on the date of the first matching pattern if any |
| DateProperties.DateInput | blueflood-http/src/main/java/com/rackspacecloud/blueflood/utils/DateTimeParser.java:133-143 | the same on the whole input of parse |
| DateProperties.EightDigitFields | blueflood-http/src/main/java/com/rackspacecloud/blueflood/utils/DateTimeParser.java:133 | eight digits are no MM/dd date and read as YYYY, MM and dd |
| DateProperties.EightDigitDateInput | blueflood-http/src/main/java/com/rackspacecloud/blueflood/utils/DateTimeParser.java:15-20 | an 8-digit date kept from the seconds reading is midnight of that date, or of the current day when no such date exists |
| DateProperties.YearMonthDayKept | blueflood-http/src/main/java/com/rackspacecloud/blueflood/utils/DateTimeParser.java:16-19 | the `yyyyMMdd` text of a date after 1900 passes the eight-digit date test and its three fields are the year, month and day |
| DateProperties.YearMonthDayInput | blueflood-http/src/main/java/com/rackspacecloud/blueflood/utils/DateTimeParser.java:15-20 | that text is midnight of that date, whatever the current date |
| DateProperties.YearMonthDayExample | blueflood-http/src/main/java/com/rackspacecloud/blueflood/utils/DateTimeParser.java:15-20 | "20141230" is midnight of 30 December 2014 |
| DateProperties.SlashedDateFields | blueflood-http/src/main/java/com/rackspacecloud/blueflood/utils/DateTimeParser.java:133 | "MM/dd/YY" reads the month, the day and the pivoted two-digit year |
| DateProperties.ShortYearInput | blueflood-http/src/main/java/com/rackspacecloud/blueflood/utils/DateTimeParser.java:133-137 | "MM/dd/YY" is midnight of that day, in the year ending in YY between 80 years before and 19 years after the current year |
| DateProperties.ShortYearExample | blueflood-http/src/main/java/com/rackspacecloud/blueflood/utils/DateTimeParser.java:133-137 | "12/30/14" is midnight of 30 December 2014 while the current year is between 1995 and 2094 |
| DateProperties.SlashedLongFirstDate | blueflood-http/src/main/java/com/rackspacecloud/blueflood/utils/DateTimeParser.java:133-137 | "MM/dd/" followed by a year of any digit count but two is read by the first pattern, `MM/dd/YY`, with the year as written |
| DateProperties.SlashedLongDateInput | blueflood-http/src/main/java/com/rackspacecloud/blueflood/utils/DateTimeParser.java:133-137 | "MM/dd/YYYY" is midnight of that date, whatever the current date |
| DateProperties.SlashedLongDateExample | blueflood-http/src/main/java/com/rackspacecloud/blueflood/utils/DateTimeParser.java:133-137 | "12/30/2014" is midnight of 30 December 2014 |
| DateProperties.LongYearIsShadowed | blueflood-http/src/main/java/com/rackspacecloud/blueflood/utils/DateTimeParser.java:133 | whatever MM/dd/YYYY reads, MM/dd/YY (tried first) reads too, to the same date when the year is at least 100 |
| DateProperties.WeekdayInput | blueflood-http/src/main/java/com/rackspacecloud/blueflood/utils/DateTimeParser.java:154-159 | a weekday name is midnight of the latest day up to today that falls on that weekday |
| NameProperties.MonthNameDayInput | blueflood-http/src/main/java/com/rackspacecloud/blueflood/utils/DateTimeParser.java:145-152 | a month name followed by one or two digits is midnight of that day in the current year, or midnight of the current day when that date does not exist |
| NameProperties.MonthNameSeparatorDayInput | blueflood-http/src/main/java/com/rackspacecloud/blueflood/utils/DateTimeParser.java:14 | a space, comma or underscore between the month name and the day (and the day of one or two digits) does not change the result |
| NameProperties.MonthNameDayYearInput | blueflood-http/src/main/java/com/rackspacecloud/blueflood/utils/DateTimeParser.java:133-143 | a month name, two day digits and a year is midnight of that date, or midnight of the current day when no such date exists |
| NameProperties.WeekdayNameInput | blueflood-http/src/main/java/com/rackspacecloud/blueflood/utils/DateTimeParser.java:154-159 | a weekday name is midnight of the latest day up to today on that weekday |
| NameProperties.JulyThirtyInput | blueflood-http/src/main/java/com/rackspacecloud/blueflood/utils/DateTimeParser.java:145-152 | "Jul 30" is midnight of 30 July in the current year |
| NameProperties.JulyThirtyYearInput | blueflood-http/src/main/java/com/rackspacecloud/blueflood/utils/DateTimeParser.java:133-143 | "July302014" is midnight of 30 July 2014 |
| NameProperties.SundayInput | blueflood-http/src/main/java/com/rackspacecloud/blueflood/utils/DateTimeParser.java:154-159 | "Sun" is midnight of the latest Sunday up to today |

## Left out

- Wall clock: the two reads of `new DateTime()` (lines 85 and 88) are one parameter `now`, so the model cannot show them straddling a minute or day boundary.
- Two-digit-year pivot: Joda fixes it when the `MM/dd/YY` formatter is built. The model takes it from `now`.
- Time zones and daylight saving: the model has one fixed zone. `new DateTime(millis)` and `plusHours` are exact, and `plusDays` is 24 hours.
- Joda's year range: `plusSeconds` … `plusYears` and `new DateTime(millis)` never throw ArithmeticException or IllegalFieldValueException for years outside it. Formatter fields do check the range.
- `StringUtils.isNumeric` and `Integer.parseInt` also accept non-ASCII Unicode digits. The model has ASCII digits only.
- Joda name parsing: the model knows English full and three-letter names, as written, in lower case and in upper case. Other mixed cases and locales are not modelled.
- SignedNumber: it follows the Joda-Time signed-field reading that skips a leading `+` and then allows five year digits. Releases that count the `+` within the widened limit (four digits after `+`, so `10:55+20141111` is 2014-11-11 10:55) are not modelled, because the Joda-Time version is not fixed by this repository's source.
- Patterns.ParseDate: its contract only states that the dates are real. What each pattern reads is proved per pattern by SlashedDateFields, SlashedLongFirstDate, EightDigitFields, LongYearIsShadowed, TextFieldOfName and TextFieldOfStranger.
- DateTimeParser.ParseResult: its own contract only states validity. The input forms are covered case by case by the ParserProperties, TimeProperties, DateProperties and NameProperties lemmas.
- DateProperties.SlashedLongDateInput: the whole-input lemma is stated for four-digit years; `SlashedLongFirstDate` covers the date field for years of any digit count but two.
- The HTTP handlers, the Elasticsearch query code and the Graphite ingestion handler are not part of this model.
