/**
 * What the date patterns refuse: text fields only start on the first two
 * letters of a name, numeric fields only on a digit. These facts let the
 * properties of parseTime say which pattern, if any, reads a given text.
 */
module PatternProperties {
  import opened Results
  import opened Text
  import opened Calendar
  import opened Patterns

  /** c is the character x as written, lower-cased or upper-cased. */
  predicate SameLetter(c: char, x: char) {
    c == x || c == LowerChar(x) || c == UpperChar(x)
  }

  /**
   * No name from index i on can start the text s: each has at least two
   * characters, and none begins, in any of its spellings, with s's first two.
   */
  predicate Avoids(s: string, names: seq<string>, i: nat)
    decreases |names| - i
  {
    i >= |names| ||
    (2 <= |names[i]| && (|s| < 2 || !(SameLetter(s[0], names[i][0]) && SameLetter(s[1], names[i][1]))) &&
     Avoids(s, names, i + 1))
  }

  lemma {:induction false} NameValueAvoids(s: string, p: string, full: seq<string>, short: seq<string>, i: nat)
    requires |full| == |short| && 1 <= |p| <= |s| && p == s[..|p|]
    requires Avoids(s, full, i) && Avoids(s, short, i)
    ensures NameValue(p, full, short, i) == 0
    decreases |full| - i
  {
    if i < |full| {
      NotSpelling(s, p, full[i]);
      NotSpelling(s, p, short[i]);
      NameValueAvoids(s, p, full, short, i + 1);
    }
  }

  lemma NotSpelling(s: string, p: string, name: string)
    requires 1 <= |p| <= |s| && p == s[..|p|] && 2 <= |name|
    requires |s| < 2 || !(SameLetter(s[0], name[0]) && SameLetter(s[1], name[1]))
    ensures !IsSpellingOf(p, name)
  {
    if |p| == |name| {
      assert p[0] == s[0] && p[1] == s[1];
    }
  }

  lemma {:induction false} LongestNameAvoids(s: string, len: nat, full: seq<string>, short: seq<string>)
    requires len <= |s| && |full| == |short| && Avoids(s, full, 0) && Avoids(s, short, 0)
    ensures LongestName(s, len, full, short).None?
  {
    if len > 0 {
      NameValueAvoids(s, s[..len], full, short, 0);
      LongestNameAvoids(s, len - 1, full, short);
    }
  }

  /** A text field reads nothing from a text that no name can start. */
  lemma TextFieldAvoids(s: string, full: seq<string>, short: seq<string>)
    requires |full| == |short| && Avoids(s, full, 0) && Avoids(s, short, 0)
    ensures TextField(s, full, short).None?
  {
    LongestNameAvoids(s, if |s| < MaxTextLength then |s| else MaxTextLength, full, short);
  }

  /** Text that no month name can start. */
  predicate NoMonthName(s: string) {
    Avoids(s, MonthNames, 0) && Avoids(s, MonthShortNames, 0)
  }

  /** Text that no weekday name can start. */
  predicate NoDayName(s: string) {
    Avoids(s, DayNames, 0) && Avoids(s, DayShortNames, 0)
  }

  /** Text starting with a digit is not a name. */
  lemma DigitsAreNoNames(s: string)
    requires s != [] && IsDigit(s[0])
    ensures NoMonthName(s) && NoDayName(s)
  {
  }

  /**
   * Text that is empty, or starts with neither a digit nor the start of a
   * name, is read by none of the patterns.
   */
  lemma NoPatternMatches(s: string, pivot: int)
    requires s == [] || (!IsDigit(s[0]) && NoMonthName(s) && NoDayName(s))
    ensures ParseDate(s, MonthDayShortYear, pivot).None? && ParseDate(s, MonthDayYear, pivot).None?
    ensures ParseDate(s, YearMonthDay, pivot).None? && ParseDate(s, MonthNameDayYear, pivot).None?
    ensures ParseDate(s, MonthNameDay, pivot).None? && ParseDate(s, DayOfWeekName, pivot).None?
  {
    if s != [] {
      TextFieldAvoids(s, MonthNames, MonthShortNames);
      TextFieldAvoids(s, DayNames, DayShortNames);
    }
  }

  // ---------------------------------------------------------------------
  // What a name field reads

  predicate IsLetter(c: char) {
    'a' <= c <= 'z' || 'A' <= c <= 'Z'
  }

  predicate AllLetters(s: string) {
    forall i :: 0 <= i < |s| ==> IsLetter(s[i])
  }

  /** The first three letters of a name, lower-cased: what tells the names of a table apart. */
  function Key(s: string): string
    requires 3 <= |s|
  {
    [LowerChar(s[0]), LowerChar(s[1]), LowerChar(s[2])]
  }

  const MonthKeys: seq<string> := ["jan", "feb", "mar", "apr", "may", "jun", "jul", "aug", "sep", "oct", "nov", "dec"]
  const DayKeys: seq<string> := ["mon", "tue", "wed", "thu", "fri", "sat", "sun"]

  /**
   * A table of full and short names: letters only, three to MaxTextLength of
   * them, the full and the short name of an entry sharing their key, and the
   * keys of different entries differing.
   */
  predicate NameTable(full: seq<string>, short: seq<string>, keys: seq<string>) {
    |full| == |short| == |keys| &&
    (forall i :: 0 <= i < |full| ==> NameEntry(full[i], short[i], keys[i])) &&
    (forall i, j :: 0 <= i < j < |keys| ==> keys[i] != keys[j])
  }

  predicate NameEntry(full: string, short: string, key: string) {
    3 <= |full| <= MaxTextLength && 3 <= |short| <= MaxTextLength &&
    AllLetters(full) && AllLetters(short) && Key(full) == key && Key(short) == key
  }

  lemma MonthEntries()
    ensures forall i :: 0 <= i < 12 ==> NameEntry(MonthNames[i], MonthShortNames[i], MonthKeys[i])
  {
    forall i | 0 <= i < 12
      ensures NameEntry(MonthNames[i], MonthShortNames[i], MonthKeys[i])
    {
      MonthEntry(i);
    }
  }

  lemma MonthEntry(i: nat)
    requires i < 12
    ensures NameEntry(MonthNames[i], MonthShortNames[i], MonthKeys[i])
  {
    if i < 4 {
      assert i == 0 || i == 1 || i == 2 || i == 3;
    } else if i < 8 {
      assert i == 4 || i == 5 || i == 6 || i == 7;
    } else {
      assert i == 8 || i == 9 || i == 10 || i == 11;
    }
  }

  lemma MonthKeysDiffer()
    ensures forall i, j :: 0 <= i < j < 12 ==> MonthKeys[i] != MonthKeys[j]
  {
  }

  lemma MonthNameTable()
    ensures NameTable(MonthNames, MonthShortNames, MonthKeys)
  {
    MonthEntries();
    MonthKeysDiffer();
  }

  lemma DayEntries()
    ensures forall i :: 0 <= i < 7 ==> NameEntry(DayNames[i], DayShortNames[i], DayKeys[i])
  {
  }

  lemma DayKeysDiffer()
    ensures forall i, j :: 0 <= i < j < 7 ==> DayKeys[i] != DayKeys[j]
  {
  }

  lemma DayNameTable()
    ensures NameTable(DayNames, DayShortNames, DayKeys)
  {
    DayEntries();
    DayKeysDiffer();
  }

  lemma LowerCharFolds(c: char)
    ensures LowerChar(LowerChar(c)) == LowerChar(c) && LowerChar(UpperChar(c)) == LowerChar(c)
    ensures IsLetter(c) ==> IsLetter(LowerChar(c)) && IsLetter(UpperChar(c))
  {
  }

  /** A spelling of a name has its length, its key, and letters where it has them. */
  lemma SpellingKey(p: string, name: string)
    requires IsSpellingOf(p, name) && 3 <= |name|
    ensures |p| == |name| && Key(p) == Key(name)
    ensures AllLetters(name) ==> AllLetters(p)
  {
    LowerCharFolds(name[0]);
    LowerCharFolds(name[1]);
    LowerCharFolds(name[2]);
    forall i | 0 <= i < |name|
      ensures IsLetter(name[i]) ==> IsLetter(p[i])
    {
      LowerCharFolds(name[i]);
    }
  }

  /** A text spells the names of at most one entry: different entries have different keys. */
  lemma SpellsOneEntry(p: string, full: seq<string>, short: seq<string>, keys: seq<string>, k: nat, i: nat)
    requires NameTable(full, short, keys) && i < |full| && k < |full| && i != k
    requires IsSpellingOf(p, full[k]) || IsSpellingOf(p, short[k])
    ensures !IsSpellingOf(p, full[i]) && !IsSpellingOf(p, short[i])
  {
    if IsSpellingOf(p, full[k]) {
      SpellingKey(p, full[k]);
    } else {
      SpellingKey(p, short[k]);
    }
    assert Key(p) == keys[k];
    assert keys[i] != keys[k] by {
      if i < k {
        assert keys[i] != keys[k];
      } else {
        assert keys[k] != keys[i];
      }
    }
    if IsSpellingOf(p, full[i]) {
      SpellingKey(p, full[i]);
      assert false;
    }
    if IsSpellingOf(p, short[i]) {
      SpellingKey(p, short[i]);
      assert false;
    }
  }

  /** The value of a spelling of entry k is k + 1 when no entry from i up to k is spelled before it. */
  lemma {:induction false} NameValueOfFirst(p: string, full: seq<string>, short: seq<string>, k: nat, i: nat)
    requires |full| == |short| && i <= k < |full|
    requires IsSpellingOf(p, full[k]) || IsSpellingOf(p, short[k])
    requires forall j :: i <= j < k ==> !IsSpellingOf(p, full[j]) && !IsSpellingOf(p, short[j])
    ensures NameValue(p, full, short, i) == k + 1
    decreases k - i
  {
    if i < k {
      NameValueOfFirst(p, full, short, k, i + 1);
    }
  }

  /** The value of a spelling of entry k is k + 1: no earlier entry shares its key. */
  lemma NameValueOfSpelling(p: string, full: seq<string>, short: seq<string>, keys: seq<string>, k: nat)
    requires NameTable(full, short, keys) && k < |full|
    requires IsSpellingOf(p, full[k]) || IsSpellingOf(p, short[k])
    ensures NameValue(p, full, short, 0) == k + 1
  {
    forall j | 0 <= j < k
      ensures !IsSpellingOf(p, full[j]) && !IsSpellingOf(p, short[j])
    {
      SpellsOneEntry(p, full, short, keys, k, j);
    }
    NameValueOfFirst(p, full, short, k, 0);
  }

  /** Text that is not all letters, or whose key no entry has, spells no name of the table. */
  lemma {:induction false} NameValueOfStranger(p: string, full: seq<string>, short: seq<string>, keys: seq<string>, i: nat)
    requires NameTable(full, short, keys)
    requires !AllLetters(p) || |p| < 3 || Key(p) !in keys
    ensures NameValue(p, full, short, i) == 0
    decreases |full| - i
  {
    if i < |full| {
      if IsSpellingOf(p, full[i]) {
        SpellingKey(p, full[i]);
        assert false;
      }
      if IsSpellingOf(p, short[i]) {
        SpellingKey(p, short[i]);
        assert false;
      }
      NameValueOfStranger(p, full, short, keys, i + 1);
    }
  }

  /** The longest name read from len down is the one at m when no longer prefix spells a name. */
  lemma {:induction false} LongestNameOfFirst(s: string, len: nat, m: nat, full: seq<string>, short: seq<string>)
    requires |full| == |short| && 0 < m <= len <= |s|
    requires NameValue(s[..m], full, short, 0) != 0
    requires forall l :: m < l <= len ==> NameValue(s[..l], full, short, 0) == 0
    ensures LongestName(s, len, full, short) == Some(Scan(NameValue(s[..m], full, short, 0), s[m..]))
    decreases len
  {
    if m < len {
      assert NameValue(s[..len], full, short, 0) == 0;
      LongestNameOfFirst(s, len - 1, m, full, short);
    } else {
      assert s[..len] == s[..m];
    }
  }

  lemma LongestNameOfSpelling(s: string, len: nat, p: string, rest: string,
                              full: seq<string>, short: seq<string>, keys: seq<string>, k: nat)
    requires NameTable(full, short, keys) && k < |full|
    requires IsSpellingOf(p, full[k]) || IsSpellingOf(p, short[k])
    requires s == p + rest && (rest == [] || !IsLetter(rest[0])) && |p| <= len <= |s|
    ensures LongestName(s, len, full, short) == Some(Scan(k + 1, rest))
  {
    if IsSpellingOf(p, full[k]) {
      SpellingKey(p, full[k]);
    } else {
      SpellingKey(p, short[k]);
    }
    assert s[..|p|] == p && s[|p|..] == rest;
    NameValueOfSpelling(p, full, short, keys, k);
    forall l | |p| < l <= len
      ensures NameValue(s[..l], full, short, 0) == 0
    {
      assert s[..l][|p|] == rest[0];
      NameValueOfStranger(s[..l], full, short, keys, 0);
    }
    LongestNameOfFirst(s, len, |p|, full, short);
  }

  /**
   * A name of entry k, as written, lower-cased or upper-cased, followed by
   * anything but a letter, is read as the value k + 1 and leaves what follows.
   */
  lemma TextFieldOfName(p: string, rest: string, full: seq<string>, short: seq<string>, keys: seq<string>, k: nat)
    requires NameTable(full, short, keys) && k < |full|
    requires IsSpellingOf(p, full[k]) || IsSpellingOf(p, short[k])
    requires rest == [] || !IsLetter(rest[0])
    ensures TextField(p + rest, full, short) == Some(Scan(k + 1, rest))
  {
    if IsSpellingOf(p, full[k]) {
      SpellingKey(p, full[k]);
    } else {
      SpellingKey(p, short[k]);
    }
    var s := p + rest;
    LongestNameOfSpelling(s, if |s| < MaxTextLength then |s| else MaxTextLength, p, rest, full, short, keys, k);
  }

  lemma {:induction false} LongestNameOfStranger(s: string, len: nat, full: seq<string>, short: seq<string>, keys: seq<string>)
    requires NameTable(full, short, keys) && len <= |s|
    requires |s| < 3 || Key(s) !in keys
    ensures LongestName(s, len, full, short).None?
    decreases len
  {
    if len > 0 {
      if 3 <= len {
        assert Key(s[..len]) == Key(s);
      }
      NameValueOfStranger(s[..len], full, short, keys, 0);
      LongestNameOfStranger(s, len - 1, full, short, keys);
    }
  }

  /** A text whose key belongs to no entry of the table is read by no name field of it. */
  lemma TextFieldOfStranger(s: string, full: seq<string>, short: seq<string>, keys: seq<string>)
    requires NameTable(full, short, keys)
    requires |s| < 3 || Key(s) !in keys
    ensures TextField(s, full, short).None?
  {
    LongestNameOfStranger(s, if |s| < MaxTextLength then |s| else MaxTextLength, full, short, keys);
  }
}
