/**
 * Properties of DateTimeParser.parse stated on whole inputs: how the
 * separators, the numeric branch, the compact fast path and the offsets
 * behave, and what the relative forms of parseTime denote.
 */
module ParserProperties {
  import opened Results
  import opened Text
  import opened Calendar
  import opened Patterns
  import opened DateTimeParser

  predicate NoSeparators(s: string) {
    forall i :: 0 <= i < |s| ==> !IsSeparator(s[i])
  }

  lemma NormalizeOfPlainText(s: string)
    requires NoSeparators(s)
    ensures Normalize(s) == s
  {
    NormalizeKeepsNonSeparators(s);
    KeptCharactersOfPlainText(s);
  }

  // ---------------------------------------------------------------------
  // Separators and the numeric branch

  /** Separators are ignored: the input and its normalised form parse alike. */
  lemma SeparatorsIgnored(s: string, now: DateTime)
    requires ValidDateTime(now)
    ensures ParseResult(s, now) == ParseResult(Normalize(s), now)
  {
    NormalizeIdempotent(s);
  }

  /** Any separator may stand in for any other. */
  lemma SeparatorsInterchangeableInParse(a: string, b: string, c: char, d: char, now: DateTime)
    requires ValidDateTime(now) && IsSeparator(c) && IsSeparator(d)
    ensures ParseResult(a + [c] + b, now) == ParseResult(a + [d] + b, now)
  {
    SeparatorsInterchangeable(a, b, c, d);
  }

  /**
   * An empty or blank input is numeric once its separators are gone, and
   * Long.parseLong of the empty text throws.
   */
  lemma BlankInputThrows(s: string, now: DateTime)
    requires ValidDateTime(now)
    requires forall i :: 0 <= i < |s| ==> IsSeparator(s[i])
    ensures ParseResult(s, now) == Thrown(NumberFormat)
  {
    NormalizeKeepsNonSeparators(s);
    KeptCharactersOfSeparators(s);
  }

  /** The decimal text of n seconds (not a plausible yyyyMMdd) is the instant n seconds after the epoch. */
  lemma EpochSecondsRoundTrip(n: nat, now: DateTime)
    requires ValidDateTime(now) && n * 1000 <= LongMax
    requires !EightDigitDate(ShowNat(n))
    ensures ParseResult(ShowNat(n), now).Ok?
    ensures ToMillis(ParseResult(ShowNat(n), now).value) == n * MillisPerSecond
  {
    var t := ShowNat(n);
    NormalizeOfPlainText(t);
    DigitsValueOfShowNat(n);
  }

  /** Epoch seconds beyond the range of a Java long throw. */
  lemma EpochSecondsOverflowThrows(s: string, now: DateTime)
    requires ValidDateTime(now) && s != [] && AllDigits(s) && DigitsValue(s) > LongMax
    ensures ParseResult(s, now) == Thrown(NumberFormat)
  {
    NormalizeOfPlainText(s);
    DigitsValueBelow(s);
    assert !EightDigitDate(s);
    assert ParseResult(s, now) == EpochSeconds(s);
  }

  /** The compact form HH:mmyyyyMMdd does not depend on the reference instant. */
  lemma CompactIndependentOfNow(s: string, now: DateTime, other: DateTime)
    requires ValidDateTime(now) && ValidDateTime(other)
    requires CompactDateTime(Normalize(s)).Some?
    ensures ParseResult(s, now) == ParseResult(s, other) == Ok(CompactDateTime(Normalize(s)).value)
  {
    var t := Normalize(s);
    var i :| 0 <= i < |t| && t[i] == ':';
    assert !IsDigit(t[i]);
  }

  /** A numeric field reads exactly the digits d in front of u. */
  lemma NumberOfDigits(d: string, u: string, max: nat)
    requires d != [] && AllDigits(d) && |d| <= max && (|d| == max || u == [] || !IsDigit(u[0]))
    ensures Number(d + u, max) == Some(Scan(DigitsValue(d), u))
  {
    LeadingDigitsOfDigits(d, u, max);
    assert (d + u)[..|d|] == d && (d + u)[|d|..] == u;
  }

  // ---------------------------------------------------------------------
  // The compact form

  /** "HH:mmyyyyMMdd" written out for a time of day and a date of a four-digit year. */
  function CompactText(h: int, mi: int, d: Date): string
    requires 0 <= h <= 23 && 0 <= mi <= 59 && 0 <= d.year <= 9999 && ValidDate(d)
  {
    TwoDigits(h) + ":" + TwoDigits(mi) + FourDigits(d.year) + TwoDigits(d.month) + TwoDigits(d.day)
  }

  /** The compact form reads back the hour, the minute and the date it was written from. */
  lemma CompactDateTimeOfText(h: int, mi: int, d: Date)
    requires 0 <= h <= 23 && 0 <= mi <= 59 && 0 <= d.year <= 9999 && ValidDate(d)
    ensures CompactDateTime(CompactText(h, mi, d)) == Some(DateTime(d, h, mi, 0, 0))
  {
    var day := TwoDigits(d.day);
    var month := TwoDigits(d.month) + day;
    var year := FourDigits(d.year) + month;
    var minute := TwoDigits(mi) + year;
    var colon := ":" + minute;
    assert CompactText(h, mi, d) == TwoDigits(h) + colon;
    NumberOfDigits(TwoDigits(h), colon, 2);
    assert colon[1..] == minute;
    NumberOfDigits(TwoDigits(mi), year, 2);
    NumberOfDigits(FourDigits(d.year), month, 4);
    NumberOfDigits(TwoDigits(d.month), day, 2);
    NumberOfDigits(day, [], 2);
    assert day + [] == day;
    CompactOfScans(CompactText(h, mi, d), colon, minute, year, month, day, h, mi, d.year, d.month, d.day);
  }

  /** The compact pattern from the scans of its five numeric fields and its ':'. */
  lemma CompactOfScans(s: string, afterHour: string, afterColon: string, afterMinute: string, afterYear: string,
                       afterMonth: string, h: int, mi: int, y: int, m: int, day: int)
    requires Number(s, 2) == Some(Scan(h, afterHour)) && Literal(afterHour, ':') == Some(afterColon)
    requires Number(afterColon, 2) == Some(Scan(mi, afterMinute))
    requires SignedNumber(afterMinute, 4) == Some(Scan(y, afterYear))
    requires Number(afterYear, 2) == Some(Scan(m, afterMonth)) && Number(afterMonth, 2) == Some(Scan(day, []))
    requires h <= 23 && mi <= 59 && ValidDate(Date(y, m, day))
    ensures CompactDateTime(s) == Some(DateTime(Date(y, m, day), h, mi, 0, 0))
  {
  }

  /** Compact text has nothing to normalise and is not a number. */
  lemma CompactTextIsPlain(h: int, mi: int, d: Date)
    requires 0 <= h <= 23 && 0 <= mi <= 59 && 0 <= d.year <= 9999 && ValidDate(d)
    ensures NoSeparators(CompactText(h, mi, d)) && !AllDigits(CompactText(h, mi, d))
  {
    var t := CompactText(h, mi, d);
    assert t[2] == ':';
    forall i | 0 <= i < |t|
      ensures IsDigit(t[i]) || t[i] == ':'
    {
    }
  }

  /** A compact input is the instant it writes, whatever the reference instant. */
  lemma CompactInput(h: int, mi: int, d: Date, now: DateTime)
    requires ValidDateTime(now) && 0 <= h <= 23 && 0 <= mi <= 59 && 0 <= d.year <= 9999 && ValidDate(d)
    ensures ParseResult(CompactText(h, mi, d), now) == Ok(DateTime(d, h, mi, 0, 0))
  {
    CompactTextIsPlain(h, mi, d);
    NormalizeOfPlainText(CompactText(h, mi, d));
    CompactDateTimeOfText(h, mi, d);
  }

  /** An input whose normalised form is compact text is the instant that text writes. */
  lemma CompactAfterNormalize(s: string, h: int, mi: int, d: Date, now: DateTime)
    requires ValidDateTime(now) && 0 <= h <= 23 && 0 <= mi <= 59 && 0 <= d.year <= 9999 && ValidDate(d)
    requires Normalize(s) == CompactText(h, mi, d)
    ensures ParseResult(s, now) == Ok(DateTime(d, h, mi, 0, 0))
  {
    SeparatorsIgnored(s, now);
    CompactInput(h, mi, d, now);
  }

  lemma DigitsAreNotSeparators(s: string)
    requires AllDigits(s)
    ensures NoSeparators(s)
  {
  }

  /** Dropping one separator that follows plain text. */
  lemma KeptAfterPlain(a: string, c: char, b: string)
    requires NoSeparators(a) && IsSeparator(c)
    ensures KeptCharacters(a + [c] + b) == a + KeptCharacters(b)
  {
    var cb := [c] + b;
    assert a + [c] + b == a + cb;
    assert cb != [] && cb[0] == c && cb[1..] == b;
    assert KeptCharacters(cb) == KeptCharacters(b);
    KeptCharactersAppend(a, cb);
    KeptCharactersOfPlainText(a);
  }

  /** The compact form with separators between the time, the year, the month and the day. */
  function SeparatedCompactText(h: int, mi: int, d: Date, c1: char, c2: char, c3: char): string
    requires 0 <= h <= 23 && 0 <= mi <= 59 && 0 <= d.year <= 9999 && ValidDate(d)
  {
    TwoDigits(h) + ":" + TwoDigits(mi) + [c1] + FourDigits(d.year) + [c2] + TwoDigits(d.month) + [c3] + TwoDigits(d.day)
  }

  lemma KeptAcrossThree(a: string, y: string, m: string, dd: string, c1: char, c2: char, c3: char)
    requires NoSeparators(a) && NoSeparators(y) && NoSeparators(m) && NoSeparators(dd)
    requires IsSeparator(c1) && IsSeparator(c2) && IsSeparator(c3)
    ensures KeptCharacters(a + [c1] + (y + [c2] + (m + [c3] + dd))) == a + (y + (m + dd))
  {
    KeptAfterPlain(a, c1, y + [c2] + (m + [c3] + dd));
    KeptAfterPlain(y, c2, m + [c3] + dd);
    KeptAfterPlain(m, c3, dd);
    KeptCharactersOfPlainText(dd);
  }

  lemma SeparatedCompactNormalized(h: int, mi: int, d: Date, c1: char, c2: char, c3: char)
    requires 0 <= h <= 23 && 0 <= mi <= 59 && 0 <= d.year <= 9999 && ValidDate(d)
    requires IsSeparator(c1) && IsSeparator(c2) && IsSeparator(c3)
    ensures Normalize(SeparatedCompactText(h, mi, d, c1, c2, c3)) == CompactText(h, mi, d)
  {
    NormalizeKeepsNonSeparators(SeparatedCompactText(h, mi, d, c1, c2, c3));
    KeptOfSeparatedFields(TwoDigits(h), TwoDigits(mi), FourDigits(d.year), TwoDigits(d.month), TwoDigits(d.day), c1, c2, c3);
  }

  /** Dropping the three separators of the separated compact form, for any digit fields. */
  lemma KeptOfSeparatedFields(hd: string, md: string, y: string, m: string, dd: string, c1: char, c2: char, c3: char)
    requires AllDigits(hd) && AllDigits(md) && AllDigits(y) && AllDigits(m) && AllDigits(dd)
    requires IsSeparator(c1) && IsSeparator(c2) && IsSeparator(c3)
    ensures KeptCharacters(hd + ":" + md + [c1] + y + [c2] + m + [c3] + dd) == hd + ":" + md + y + m + dd
  {
    var a := hd + ":" + md;
    DigitsAreNotSeparators(hd);
    DigitsAreNotSeparators(md);
    PlainCharacter(':');
    NoSeparatorsAppend(hd, ":");
    NoSeparatorsAppend(hd + ":", md);
    KeptCharactersOfPlainText(a);
    DigitsAreNotSeparators(y);
    DigitsAreNotSeparators(m);
    DigitsAreNotSeparators(dd);
    KeptBeforePlain(a, c1, y);
    KeptBeforePlain(a + [c1] + y, c2, m);
    KeptBeforePlain(a + [c1] + y + [c2] + m, c3, dd);
  }

  lemma PlainCharacter(c: char)
    requires !IsSeparator(c)
    ensures NoSeparators([c])
  {
  }

  /** Dropping one separator that precedes plain text. */
  lemma KeptBeforePlain(a: string, c: char, b: string)
    requires IsSeparator(c) && NoSeparators(b)
    ensures KeptCharacters(a + [c] + b) == KeptCharacters(a) + b
  {
    var ac := a + [c];
    assert KeptCharacters([c]) == [] by {
      assert [c][1..] == [];
    }
    KeptCharactersAppend(a, [c]);
    assert KeptCharacters(ac) == KeptCharacters(a) + [];
    KeptCharactersAppend(ac, b);
    KeptCharactersOfPlainText(b);
  }

  /** Separators between the fields of the compact form do not change what it denotes. */
  lemma SeparatedCompactInput(h: int, mi: int, d: Date, c1: char, c2: char, c3: char, now: DateTime)
    requires ValidDateTime(now) && 0 <= h <= 23 && 0 <= mi <= 59 && 0 <= d.year <= 9999 && ValidDate(d)
    requires IsSeparator(c1) && IsSeparator(c2) && IsSeparator(c3)
    ensures ParseResult(SeparatedCompactText(h, mi, d, c1, c2, c3), now) == Ok(DateTime(d, h, mi, 0, 0))
  {
    SeparatedCompactNormalized(h, mi, d, c1, c2, c3);
    CompactAfterNormalize(SeparatedCompactText(h, mi, d, c1, c2, c3), h, mi, d, now);
  }

  /** "10:55 2014 12 20" and "10:55_2014_12_20" are 10:55 on 20 December 2014. */
  lemma CompactWithSeparators(now: DateTime)
    requires ValidDateTime(now)
    ensures ParseResult("10:55 2014 12 20", now) == Ok(DateTime(Date(2014, 12, 20), 10, 55, 0, 0))
    ensures ParseResult("10:55_2014_12_20", now) == Ok(DateTime(Date(2014, 12, 20), 10, 55, 0, 0))
  {
    var d := Date(2014, 12, 20);
    SpacedCompactText();
    UnderscoredCompactText();
    SeparatedCompactInput(10, 55, d, ' ', ' ', ' ', now);
    SeparatedCompactInput(10, 55, d, '_', '_', '_', now);
  }

  lemma SpacedCompactText()
    ensures SeparatedCompactText(10, 55, Date(2014, 12, 20), ' ', ' ', ' ') == "10:55 2014 12 20"
  {
  }

  lemma UnderscoredCompactText()
    ensures SeparatedCompactText(10, 55, Date(2014, 12, 20), '_', '_', '_') == "10:55_2014_12_20"
  {
  }

  /**
   * A '+' directly before the year digits is read as the year's sign, and
   * then the year takes up to five digits.
   */
  lemma PlusYearCompactDateTime(h: int, mi: int, yd: string, md: string, dd: string)
    requires 0 <= h <= 23 && 0 <= mi <= 59
    requires |yd| == 5 && AllDigits(yd) && |md| == 2 && AllDigits(md) && 1 <= |dd| <= 2 && AllDigits(dd)
    requires ValidDate(Date(DigitsValue(yd), DigitsValue(md), DigitsValue(dd)))
    ensures CompactDateTime(TwoDigits(h) + ":" + TwoDigits(mi) + "+" + yd + md + dd)
         == Some(DateTime(Date(DigitsValue(yd), DigitsValue(md), DigitsValue(dd)), h, mi, 0, 0))
  {
    PlusYearFields(TwoDigits(h), TwoDigits(mi), yd, md, dd, h, mi, DigitsValue(yd), DigitsValue(md), DigitsValue(dd));
  }

  /** PlusYearCompactDateTime for any two-digit hour and minute texts. */
  lemma PlusYearFields(hd: string, mid: string, yd: string, md: string, dd: string, h: int, mi: int, y: int, m: int, day: int)
    requires |hd| == 2 && AllDigits(hd) && |mid| == 2 && AllDigits(mid)
    requires |yd| == 5 && AllDigits(yd) && |md| == 2 && AllDigits(md) && 1 <= |dd| <= 2 && AllDigits(dd)
    requires DigitsValue(hd) == h <= 23 && DigitsValue(mid) == mi <= 59
    requires DigitsValue(yd) == y && DigitsValue(md) == m && DigitsValue(dd) == day && ValidDate(Date(y, m, day))
    ensures CompactDateTime(hd + ":" + mid + "+" + yd + md + dd) == Some(DateTime(Date(y, m, day), h, mi, 0, 0))
  {
    var month := md + dd;
    var plus := "+" + (yd + month);
    PlusYearScans(hd, mid, yd, md, dd);
    CompactOfScans(hd + ":" + mid + "+" + yd + md + dd, ":" + (mid + plus), mid + plus, plus, month, dd, h, mi, y, m, day);
  }

  /** The scans of the compact pattern over "HH:mm+" and eight digits, field by field. */
  lemma PlusYearScans(hd: string, mid: string, yd: string, md: string, dd: string)
    requires |hd| == 2 && AllDigits(hd) && |mid| == 2 && AllDigits(mid)
    requires |yd| == 5 && AllDigits(yd) && |md| == 2 && AllDigits(md) && 1 <= |dd| <= 2 && AllDigits(dd)
    ensures Number(hd + ":" + mid + "+" + yd + md + dd, 2)
         == Some(Scan(DigitsValue(hd), ":" + (mid + ("+" + (yd + (md + dd))))))
    ensures Literal(":" + (mid + ("+" + (yd + (md + dd)))), ':') == Some(mid + ("+" + (yd + (md + dd))))
    ensures Number(mid + ("+" + (yd + (md + dd))), 2) == Some(Scan(DigitsValue(mid), "+" + (yd + (md + dd))))
    ensures SignedNumber("+" + (yd + (md + dd)), 4) == Some(Scan(DigitsValue(yd), md + dd))
    ensures Number(md + dd, 2) == Some(Scan(DigitsValue(md), dd)) && Number(dd, 2) == Some(Scan(DigitsValue(dd), []))
  {
    var month := md + dd;
    var plus := "+" + (yd + month);
    ConcatAssoc(hd + ":" + mid + "+" + yd, md, dd);
    ConcatAssoc(hd + ":" + mid + "+", yd, month);
    ConcatAssoc(hd + ":" + mid, "+", yd + month);
    ConcatAssoc(hd + ":", mid, plus);
    ConcatAssoc(hd, ":", mid + plus);
    ClockFieldScans(hd, mid, plus);
    PlusYearScan(yd, month);
    MonthDayScans(md, dd);
  }

  lemma ConcatAssoc(a: string, b: string, c: string)
    ensures a + b + c == a + (b + c)
  {
  }

  /** The hour, the ':' and the minute of the compact form, before text that starts with no digit. */
  lemma ClockFieldScans(hd: string, mid: string, rest: string)
    requires |hd| == 2 && AllDigits(hd) && |mid| == 2 && AllDigits(mid)
    ensures Number(hd + (":" + (mid + rest)), 2) == Some(Scan(DigitsValue(hd), ":" + (mid + rest)))
    ensures Literal(":" + (mid + rest), ':') == Some(mid + rest)
    ensures Number(mid + rest, 2) == Some(Scan(DigitsValue(mid), rest))
  {
    var minute := mid + rest;
    NumberOfDigits(hd, ":" + minute, 2);
    assert (":" + minute)[1..] == minute;
    NumberOfDigits(mid, rest, 2);
  }

  /** The month and the day of the compact form, two digits and then one or two to the end. */
  lemma MonthDayScans(md: string, dd: string)
    requires |md| == 2 && AllDigits(md) && 1 <= |dd| <= 2 && AllDigits(dd)
    ensures Number(md + dd, 2) == Some(Scan(DigitsValue(md), dd))
    ensures Number(dd, 2) == Some(Scan(DigitsValue(dd), []))
  {
    NumberOfDigits(md, dd, 2);
    NumberOfDigits(dd, [], 2);
    assert dd + [] == dd;
  }

  /** A '+' and five year digits: Joda reads the '+' as the sign and takes all five digits. */
  lemma PlusYearScan(yd: string, rest: string)
    requires |yd| == 5 && AllDigits(yd)
    ensures SignedNumber("+" + (yd + rest), 4) == Some(Scan(DigitsValue(yd), rest))
  {
    var plus := "+" + (yd + rest);
    assert plus[1..] == yd + rest && plus[1] == yd[0];
    NumberOfDigits(yd, rest, 5);
  }

  /**
   * The compact form is tried before the input is split at '+': "HH:mm+" and
   * eight digits is the compact form with a five-digit year, not an offset.
   */
  lemma PlusYearInput(h: int, mi: int, yd: string, md: string, dd: string, now: DateTime)
    requires ValidDateTime(now) && 0 <= h <= 23 && 0 <= mi <= 59
    requires |yd| == 5 && AllDigits(yd) && |md| == 2 && AllDigits(md) && 1 <= |dd| <= 2 && AllDigits(dd)
    requires ValidDate(Date(DigitsValue(yd), DigitsValue(md), DigitsValue(dd)))
    ensures ParseResult(TwoDigits(h) + ":" + TwoDigits(mi) + "+" + yd + md + dd, now)
         == Ok(DateTime(Date(DigitsValue(yd), DigitsValue(md), DigitsValue(dd)), h, mi, 0, 0))
  {
    var t := TwoDigits(h) + ":" + TwoDigits(mi) + "+" + yd + md + dd;
    PlusYearTextIsPlain(TwoDigits(h), TwoDigits(mi), yd, md, dd);
    NormalizeOfPlainText(t);
    PlusYearCompactDateTime(h, mi, yd, md, dd);
  }

  lemma PlusYearTextIsPlain(hd: string, md2: string, yd: string, md: string, dd: string)
    requires |hd| == 2 && AllDigits(hd) && AllDigits(md2) && AllDigits(yd) && AllDigits(md) && AllDigits(dd)
    ensures NoSeparators(hd + ":" + md2 + "+" + yd + md + dd) && !AllDigits(hd + ":" + md2 + "+" + yd + md + dd)
  {
    var t := hd + ":" + md2 + "+" + yd + md + dd;
    assert t[2] == ':';
    DigitsAreNotSeparators(hd);
    DigitsAreNotSeparators(md2);
    DigitsAreNotSeparators(yd);
    DigitsAreNotSeparators(md);
    DigitsAreNotSeparators(dd);
    PlainCharacter(':');
    PlainCharacter('+');
    NoSeparatorsAppend(hd, ":");
    NoSeparatorsAppend(hd + ":", md2);
    NoSeparatorsAppend(hd + ":" + md2, "+");
    NoSeparatorsAppend(hd + ":" + md2 + "+", yd);
    NoSeparatorsAppend(hd + ":" + md2 + "+" + yd, md);
    NoSeparatorsAppend(hd + ":" + md2 + "+" + yd + md, dd);
  }

  /** "10:55+20141111" is 10:55 on 1 November of the year 20141. */
  lemma PlusBeforeYearIsCompact(now: DateTime)
    requires ValidDateTime(now)
    ensures ParseResult("10:55+20141111", now) == Ok(DateTime(Date(20141, 11, 1), 10, 55, 0, 0))
  {
    var one := [DigitChar(1)];
    var yd := FourDigits(2014) + one;
    PlusYearExampleDigits();
    PlusYearExampleText();
    PlusYearInput(10, 55, yd, TwoDigits(11), one, now);
  }

  lemma PlusYearExampleDigits()
    ensures |[DigitChar(1)]| == 1 && AllDigits([DigitChar(1)]) && DigitsValue([DigitChar(1)]) == 1
    ensures |FourDigits(2014) + [DigitChar(1)]| == 5 && AllDigits(FourDigits(2014) + [DigitChar(1)])
    ensures DigitsValue(FourDigits(2014) + [DigitChar(1)]) == 20141
  {
    var one := [DigitChar(1)];
    assert one[..0] == [];
    DigitsValueAppend(FourDigits(2014), one);
  }

  lemma PlusYearExampleText()
    ensures TwoDigits(10) + ":" + TwoDigits(55) + "+" + (FourDigits(2014) + [DigitChar(1)]) + TwoDigits(11) + [DigitChar(1)]
         == "10:55+20141111"
  {
  }

  // ---------------------------------------------------------------------
  // Offsets

  /** Joda-style greedy digits stop at the end of a digit run, or once they have max digits. */
  lemma {:induction false} LeadingDigitsOfDigits(d: string, u: string, max: nat)
    requires AllDigits(d) && |d| <= max && (|d| == max || u == [] || !IsDigit(u[0]))
    ensures LeadingDigits(d + u, max) == |d|
  {
    if d == [] {
      assert d + u == u;
    } else {
      assert (d + u)[1..] == d[1..] + u;
      LeadingDigitsOfDigits(d[1..], u, max - 1);
    }
  }

  /** The count group of an offset written as a number and a unit is exactly the number. */
  lemma CountLengthOfShowInt(n: int, unit: string)
    requires AllLowerLetters(unit)
    ensures CountLength(ShowInt(n) + unit) == |ShowInt(n)|
  {
    if n < 0 {
      assert ShowInt(n) + unit == "-" + ShowNat(-n) + unit;
      CountLengthOfNumber("-", ShowNat(-n), unit);
    } else {
      assert ShowInt(n) + unit == "" + ShowNat(n) + unit;
      CountLengthOfNumber("", ShowNat(n), unit);
    }
  }

  lemma CountLengthOfNumber(sign: string, digits: string, unit: string)
    requires sign == "" || sign == "-"
    requires digits != [] && AllDigits(digits) && AllLowerLetters(unit)
    ensures CountLength(sign + digits + unit) == |sign| + |digits|
  {
    var offset := sign + digits + unit;
    assert unit == [] || !IsDigit(unit[0]);
    assert offset[|sign|..] == digits + unit;
    LeadingDigitsOfDigits(digits, unit, |offset|);
  }

  /** The text of the count group "-?\d*": an optional '-' and then digits only. */
  predicate IsCountText(c: string) {
    AllDigits(c) || (c != [] && c[0] == '-' && AllDigits(c[1..]))
  }

  /**
   * The greedy count length gives the only split of an offset into a count
   * group and a group of lower-case letters: MatchesOffset is the regular
   * expression "(-?\d*)([a-z]*)" matching the whole offset.
   */
  lemma MatchesOffsetIsRegex(offset: string)
    ensures MatchesOffset(offset) <==>
            exists k :: 0 <= k <= |offset| && IsCountText(offset[..k]) && AllLowerLetters(offset[k..])
  {
    var n := CountLength(offset);
    if offset != [] && offset[0] == '-' {
      assert offset[..n][1..] == offset[1..n];
    } else {
      assert offset[..n] == offset[..n];
    }
    assert IsCountText(offset[..n]);
    if k :| 0 <= k <= |offset| && IsCountText(offset[..k]) && AllLowerLetters(offset[k..]) {
      CountSplitIsGreedy(offset, k);
    }
  }

  lemma CountSplitIsGreedy(offset: string, k: nat)
    requires k <= |offset| && IsCountText(offset[..k]) && AllLowerLetters(offset[k..])
    ensures k == CountLength(offset)
  {
    CountGroupDigits(offset);
    CountTextDigits(offset, k);
    if k < |offset| {
      assert offset[k..][0] == offset[k];
    }
  }

  /** The count group is digits after its optional '-'. */
  lemma CountGroupDigits(offset: string)
    ensures forall i :: (if offset != [] && offset[0] == '-' then 1 else 0) <= i < CountLength(offset) ==> IsDigit(offset[i])
  {
    var n := CountLength(offset);
    if offset != [] && offset[0] == '-' {
      forall i | 1 <= i < n
        ensures IsDigit(offset[i])
      {
        assert offset[1..n][i - 1] == offset[i];
      }
    } else {
      forall i | 0 <= i < n
        ensures IsDigit(offset[i])
      {
        assert offset[..n][i] == offset[i];
      }
    }
  }

  /** Count text is digits after its optional '-'. */
  lemma CountTextDigits(offset: string, k: nat)
    requires k <= |offset| && IsCountText(offset[..k])
    ensures forall i :: (if k > 0 && offset[0] == '-' then 1 else 0) <= i < k ==> IsDigit(offset[i])
  {
    if k > 0 && offset[0] == '-' {
      forall i | 1 <= i < k
        ensures IsDigit(offset[i])
      {
        assert offset[..k][1..][i - 1] == offset[i];
      }
    } else {
      forall i | 0 <= i < k
        ensures IsDigit(offset[i])
      {
        assert offset[..k][i] == offset[i];
      }
    }
  }

  /** An offset written as a Java int and a unit applies that count in that unit. */
  lemma OffsetRoundTrip(base: DateTime, n: int, unit: string)
    requires ValidDate(base.date) && IntMin <= n <= IntMax && AllLowerLetters(unit)
    ensures ParseOffset(base, ShowInt(n) + unit) == Ok(ApplyUnit(base, unit, n))
  {
    var offset := ShowInt(n) + unit;
    CountLengthOfShowInt(n, unit);
    assert offset[..|ShowInt(n)|] == ShowInt(n);
    assert offset[|ShowInt(n)|..] == unit;
    ParseSignedOfShowInt(n, IntMin, IntMax);
  }

  /** A unit without a count is parsed with Integer.parseInt("") or ("-"), which throws. */
  lemma MissingCountThrows(base: DateTime, unit: string)
    requires ValidDate(base.date) && unit != [] && AllLowerLetters(unit)
    ensures ParseOffset(base, unit) == Thrown(NumberFormat)
    ensures ParseOffset(base, "-" + unit) == Thrown(NumberFormat)
  {
    assert !IsDigit(unit[0]);
    assert CountLength(unit) == 0;
    assert ("-" + unit)[1..] == unit;
    assert CountLength("-" + unit) == 1;
    assert ("-" + unit)[1..] == unit;
    assert ("-" + unit)[..1] == "-";
  }

  /**
   * The units of fixed length: s, min and h move the instant by that many
   * milliseconds, and so does d (the date moves, the time of day stays). The
   * first prefix that matches wins, so "sec" is seconds and "min" minutes.
   */
  lemma FixedLengthUnits(base: DateTime, unit: string, count: int)
    requires ValidDateTime(base)
    ensures var r := ApplyUnit(base, unit, count);
      && (StartsWith(unit, "s") ==> ToMillis(r) == ToMillis(base) + count * MillisPerSecond)
      && (StartsWith(unit, "min") ==> ToMillis(r) == ToMillis(base) + count * MillisPerMinute)
      && (StartsWith(unit, "h") ==> ToMillis(r) == ToMillis(base) + count * MillisPerHour)
      && (StartsWith(unit, "d") ==> ToMillis(r) == ToMillis(base) + count * MillisPerDay)
  {
    if StartsWith(unit, "min") {
      PrefixesClash(unit, "min", "s", 0);
    }
    if StartsWith(unit, "h") {
      PrefixesClash(unit, "h", "s", 0);
      PrefixesClash(unit, "h", "min", 0);
    }
    if StartsWith(unit, "d") {
      PrefixesClash(unit, "d", "s", 0);
      PrefixesClash(unit, "d", "min", 0);
      PrefixesClash(unit, "d", "h", 0);
      PlusDaysIsFixedDuration(base, count);
    }
  }

  /**
   * The calendar units: mon moves the month (clamping the day), y moves the
   * year; any other unit, a bare "m" included, leaves the base alone.
   */
  lemma CalendarUnits(base: DateTime, unit: string, count: int)
    requires ValidDateTime(base)
    ensures var r := ApplyUnit(base, unit, count);
      && (StartsWith(unit, "mon") ==> MonthIndex(r.date) == MonthIndex(base.date) + count && r.hour == base.hour)
      && (StartsWith(unit, "y") ==> r.date.year == base.date.year + count && r.date.month == base.date.month)
      && ((!StartsWith(unit, "s") && !StartsWith(unit, "min") && !StartsWith(unit, "h") &&
           !StartsWith(unit, "d") && !StartsWith(unit, "mon") && !StartsWith(unit, "y")) ==> r == base)
  {
    if StartsWith(unit, "mon") {
      PrefixesClash(unit, "mon", "s", 0);
      PrefixesClash(unit, "mon", "min", 1);
      PrefixesClash(unit, "mon", "h", 0);
      PrefixesClash(unit, "mon", "d", 0);
      assert ApplyUnit(base, unit, count) == PlusMonths(base, count);
    }
    if StartsWith(unit, "y") {
      PrefixesClash(unit, "y", "s", 0);
      PrefixesClash(unit, "y", "min", 0);
      PrefixesClash(unit, "y", "h", 0);
      PrefixesClash(unit, "y", "d", 0);
      PrefixesClash(unit, "y", "mon", 0);
      assert ApplyUnit(base, unit, count) == PlusYears(base, count);
    }
  }

  /** Two prefixes that differ at some position cannot both start the same unit. */
  lemma PrefixesClash(unit: string, p: string, q: string, k: nat)
    requires StartsWith(unit, p) && k < |p| && k < |q| && p[k] != q[k]
    ensures !StartsWith(unit, q)
  {
    assert unit[k] == p[k];
  }

  /** Splitting at the first '+': everything before it is the base, everything after it the offset. */
  lemma SplitAtPlus(b: string, rest: string)
    requires '+' !in b
    ensures SplitOffset(b + "+" + rest) == Split(b, Some(rest))
  {
    var t := b + "+" + rest;
    assert t[..|b|] == b;
    IndexOfFirst(t, '+', |b|);
    assert t[|b| + 1..] == rest;
  }

  /** Without a '+', splitting at the first '-' keeps the '-' on the offset. */
  lemma SplitAtMinus(b: string, rest: string)
    requires '+' !in b && '-' !in b && '+' !in rest
    ensures SplitOffset(b + "-" + rest) == Split(b, Some("-" + rest))
  {
    var t := b + "-" + rest;
    assert '+' !in t;
    assert t[..|b|] == b;
    IndexOfFirst(t, '-', |b|);
    assert t[|b| + 1..] == rest;
  }

  lemma NoSeparatorsAppend(a: string, b: string)
    requires NoSeparators(a) && NoSeparators(b)
    ensures NoSeparators(a + b)
  {
    forall i | 0 <= i < |a + b|
      ensures !IsSeparator((a + b)[i])
    {
      if i >= |a| {
        assert (a + b)[i] == b[i - |a|];
      }
    }
  }

  /** The characters of a written number: digits and a leading '-'. */
  lemma ShowIntCharacters(n: int)
    ensures NoSeparators(ShowInt(n)) && ':' !in ShowInt(n) && '+' !in ShowInt(n)
    ensures n >= 0 ==> '-' !in ShowInt(n)
  {
    var s := ShowInt(n);
    forall i | 0 <= i < |s|
      ensures s[i] == '-' || IsDigit(s[i])
    {
      if n < 0 && i > 0 {
        assert s[i] == ShowNat(-n)[i - 1];
      }
    }
  }

  lemma UnitCharacters(unit: string)
    requires AllLowerLetters(unit)
    ensures NoSeparators(unit) && ':' !in unit && '+' !in unit && '-' !in unit
  {
    forall i | 0 <= i < |unit|
      ensures IsLowerLetter(unit[i])
    {
    }
  }

  /** A numeric field ends the text, or leaves a rest that ends as the text does. */
  lemma NumberEnd(s: string, max: nat)
    requires Number(s, max).Some?
    ensures var rest := Number(s, max).value.rest;
      (rest == [] ==> IsDigit(s[|s| - 1])) && (rest != [] ==> rest[|rest| - 1] == s[|s| - 1])
  {
    var n := LeadingDigits(s, max);
    if n == |s| {
      assert s[..n][|s| - 1] == s[|s| - 1];
    } else {
      assert s[n..][|s| - n - 1] == s[|s| - 1];
    }
  }

  lemma SignedNumberEnd(s: string, max: nat)
    requires SignedNumber(s, max).Some?
    ensures var rest := SignedNumber(s, max).value.rest;
      (rest == [] ==> IsDigit(s[|s| - 1])) && (rest != [] ==> rest[|rest| - 1] == s[|s| - 1])
  {
    if 2 <= |s| && (s[0] == '-' || s[0] == '+') && IsDigit(s[1]) {
      NumberEnd(s[1..], if s[0] == '-' then max else max + 1);
    } else {
      NumberEnd(s, max);
    }
  }

  /** The compact form reads a day number last, so a matching text ends with a digit. */
  lemma CompactEndsInDigit(s: string)
    ensures CompactDateTime(s).Some? ==> s != [] && IsDigit(s[|s| - 1])
  {
    if CompactDateTime(s).Some? {
      var hour := Number(s, 2).value;
      NumberEnd(s, 2);
      var minute := Number(hour.rest[1..], 2).value;
      NumberEnd(hour.rest[1..], 2);
      DateFieldsEndInDigit(minute.rest);
    }
  }

  /** The signed year, month and day of the compact form, with nothing left, end with a digit. */
  lemma DateFieldsEndInDigit(y: string)
    requires SignedNumber(y, 4).Some?
    requires Number(SignedNumber(y, 4).value.rest, 2).Some?
    requires Number(Number(SignedNumber(y, 4).value.rest, 2).value.rest, 2).Some?
    requires Number(Number(SignedNumber(y, 4).value.rest, 2).value.rest, 2).value.rest == []
    ensures y != [] && IsDigit(y[|y| - 1])
  {
    var year := SignedNumber(y, 4).value;
    SignedNumberEnd(y, 4);
    NumberEnd(year.rest, 2);
    NumberEnd(Number(year.rest, 2).value.rest, 2);
  }

  /**
   * Text that is neither numeric nor compact is split: parseTime reads the
   * base, a throw from it escapes, and otherwise parseOffset reads the rest.
   */
  lemma ParseOfOffsetText(t: string, b: string, offset: string, now: DateTime)
    requires ValidDateTime(now) && NoSeparators(t) && !AllDigits(t) && CompactDateTime(t).None?
    requires SplitOffset(t) == Split(b, Some(offset))
    ensures ':' !in b ==> TimeResult(b, now).Ok?
    ensures ParseResult(t, now) ==
              match TimeResult(b, now)
              case Ok(base) => ParseOffset(base, offset)
              case Thrown(e) => Thrown(e)
  {
    NormalizeOfPlainText(t);
  }

  /** Text made of a base, one sign character, a written number and a unit has nothing to normalise. */
  lemma OffsetTextIsPlain(b: string, c: char, number: string, unit: string)
    requires NoSeparators(b) && !IsSeparator(c) && c != ':' && AllLowerLetters(unit)
    requires NoSeparators(number) && ':' !in number && '+' !in number
    ensures var t := b + [c] + number + unit;
      NoSeparators(t) && (':' in t <==> ':' in b) && t[|b|] == c && '+' !in number + unit
  {
    UnitCharacters(unit);
    NoSeparatorsAppend(b, [c]);
    NoSeparatorsAppend(b + [c], number);
    NoSeparatorsAppend(b + [c] + number, unit);
    var t := b + [c] + number + unit;
    forall j | |b| <= j < |t|
      ensures t[j] != ':'
    {
      if |b| < j < |b| + 1 + |number| {
        assert t[j] == number[j - |b| - 1];
      } else if |b| + 1 + |number| <= j {
        assert t[j] == unit[j - |b| - 1 - |number|];
      }
    }
    if ':' in t {
      var i :| 0 <= i < |t| && t[i] == ':';
      assert b[i] == t[i];
    }
    if ':' in b {
      var i :| 0 <= i < |b| && b[i] == ':';
      assert t[i] == ':';
    }
  }

  /** A text that ends with the letters of a unit is not the compact form. */
  lemma UnitEndIsNotCompact(t: string, unit: string)
    requires unit != [] && AllLowerLetters(unit) && |unit| <= |t| && t[|t| - |unit|..] == unit
    ensures CompactDateTime(t).None?
  {
    assert t[|t| - 1] == unit[|unit| - 1];
    CompactEndsInDigit(t);
  }

  lemma PlusOffsetText(b: string, n: int, unit: string)
    requires NoSeparators(b) && '+' !in b && AllLowerLetters(unit) && (unit != [] || ':' !in b)
    ensures NoSeparators(b + "+" + ShowInt(n) + unit)
    ensures CompactDateTime(b + "+" + ShowInt(n) + unit).None?
    ensures !AllDigits(b + "+" + ShowInt(n) + unit)
    ensures SplitOffset(b + "+" + ShowInt(n) + unit) == Split(b, Some(ShowInt(n) + unit))
  {
    var t := b + "+" + ShowInt(n) + unit;
    ShowIntCharacters(n);
    OffsetTextIsPlain(b, '+', ShowInt(n), unit);
    assert !IsDigit(t[|b|]);
    assert t == b + "+" + (ShowInt(n) + unit);
    if unit != [] {
      assert t[|t| - |unit|..] == unit;
      UnitEndIsNotCompact(t, unit);
    }
    SplitAtPlus(b, ShowInt(n) + unit);
  }

  lemma MinusOffsetText(b: string, n: int, unit: string)
    requires NoSeparators(b) && '+' !in b && '-' !in b && AllLowerLetters(unit) && n >= 1
    requires unit != [] || ':' !in b
    ensures NoSeparators(b + "-" + ShowNat(n) + unit)
    ensures CompactDateTime(b + "-" + ShowNat(n) + unit).None?
    ensures !AllDigits(b + "-" + ShowNat(n) + unit)
    ensures SplitOffset(b + "-" + ShowNat(n) + unit) == Split(b, Some("-" + (ShowNat(n) + unit)))
  {
    var t := b + "-" + ShowNat(n) + unit;
    ShowIntCharacters(n);
    OffsetTextIsPlain(b, '-', ShowNat(n), unit);
    if unit != [] {
      assert t[|t| - |unit|..] == unit;
      UnitEndIsNotCompact(t, unit);
    }
    MinusOffsetSplit(b, n, unit);
  }

  lemma MinusOffsetSplit(b: string, n: int, unit: string)
    requires '+' !in b && '-' !in b && AllLowerLetters(unit) && n >= 1
    ensures !IsDigit((b + "-" + ShowNat(n) + unit)[|b|])
    ensures SplitOffset(b + "-" + ShowNat(n) + unit) == Split(b, Some("-" + (ShowNat(n) + unit)))
  {
    var t := b + "-" + ShowNat(n) + unit;
    ShowIntCharacters(n);
    UnitCharacters(unit);
    assert ShowInt(n) == ShowNat(n);
    assert t == b + "-" + (ShowNat(n) + unit);
    SplitAtMinus(b, ShowNat(n) + unit);
  }

  /**
   * "base+Nunit": the base is read by parseTime and the offset applied to it.
   * A base without ':' never throws; a clock base that throws makes the whole
   * parse throw. A unit is needed only when the base has a ':', since
   * "HH:mm+yyyyMMdd" is read by the compact form.
   */
  lemma ParseAppliesOffset(b: string, n: int, unit: string, now: DateTime)
    requires ValidDateTime(now) && NoSeparators(b) && '+' !in b
    requires IntMin <= n <= IntMax && AllLowerLetters(unit) && (unit != [] || ':' !in b)
    ensures ':' !in b ==> TimeResult(b, now).Ok?
    ensures ParseResult(b + "+" + ShowInt(n) + unit, now) ==
              match TimeResult(b, now)
              case Ok(base) => Ok(ApplyUnit(base, unit, n))
              case Thrown(e) => Thrown(e)
  {
    PlusOffsetText(b, n, unit);
    ParseOfOffsetText(b + "+" + ShowInt(n) + unit, b, ShowInt(n) + unit, now);
    if TimeResult(b, now).Ok? {
      OffsetRoundTrip(TimeResult(b, now).value, n, unit);
    }
  }

  lemma NegativeText(n: int, unit: string)
    requires n >= 1
    ensures "-" + (ShowNat(n) + unit) == ShowInt(-n) + unit
  {
  }

  /** "base-Nunit" goes back N units from the base, or throws when the base does. */
  lemma ParseAppliesNegativeOffset(b: string, n: int, unit: string, now: DateTime)
    requires ValidDateTime(now) && NoSeparators(b) && '+' !in b && '-' !in b
    requires 1 <= n <= 0x8000_0000 && AllLowerLetters(unit) && (unit != [] || ':' !in b)
    ensures ':' !in b ==> TimeResult(b, now).Ok?
    ensures ParseResult(b + "-" + ShowNat(n) + unit, now) ==
              match TimeResult(b, now)
              case Ok(base) => Ok(ApplyUnit(base, unit, -n))
              case Thrown(e) => Thrown(e)
  {
    var t, offset := b + "-" + ShowNat(n) + unit, ShowInt(-n) + unit;
    MinusOffsetText(b, n, unit);
    NegativeText(n, unit);
    ParseOfOffsetText(t, b, offset, now);
    if TimeResult(b, now).Ok? {
      OffsetRoundTrip(TimeResult(b, now).value, -n, unit);
    }
  }

  /** An offset with a ':' in it (a time-zone suffix such as "06:00") does not match and changes nothing. */
  lemma ColonOffsetIsIgnored(base: DateTime, offset: string)
    requires ValidDate(base.date) && ':' in offset
    ensures ParseOffset(base, offset) == Ok(base)
  {
    var k :| 0 <= k < |offset| && offset[k] == ':';
    var n := CountLength(offset);
    if k < n {
      assert false;
    }
    assert offset[n..][k - n] == ':';
  }

  /**
   * "base+HH:MM": parse reads the base and ignores the suffix, so a time
   * zone written after '+' has no effect.
   */
  lemma TimeZoneSuffixIgnored(b: string, offset: string, now: DateTime)
    requires ValidDateTime(now) && b != [] && !IsDigit(b[0]) && '+' !in b && ':' !in b
    requires NoSeparators(b + "+" + offset) && ':' in offset
    ensures TimeResult(b, now).Ok?
    ensures ParseResult(b + "+" + offset, now) == TimeResult(b, now)
  {
    var t := b + "+" + offset;
    NormalizeOfPlainText(t);
    assert t[0] == b[0];
    SplitAtPlus(b, offset);
    ColonOffsetIsIgnored(TimeResult(b, now).value, offset);
  }
}
