/**
 * The Java string and number primitives the parser calls: decimal digits,
 * Integer.parseInt and Long.parseLong, 32- and 64-bit wrap-around, the
 * truncating remainder operator, indexOf/startsWith, and String.replace as
 * used to drop the cosmetic separators from the input.
 */
module Text {
  import opened Results

  predicate IsDigit(c: char) {
    '0' <= c <= '9'
  }

  predicate AllDigits(s: string) {
    forall i :: 0 <= i < |s| ==> IsDigit(s[i])
  }

  predicate IsLowerLetter(c: char) {
    'a' <= c <= 'z'
  }

  predicate AllLowerLetters(s: string) {
    forall i :: 0 <= i < |s| ==> IsLowerLetter(s[i])
  }

  function DigitValue(c: char): (v: int)
    requires IsDigit(c)
    ensures 0 <= v <= 9
  {
    c as int - '0' as int
  }

  function DigitChar(v: int): (c: char)
    requires 0 <= v <= 9
    ensures IsDigit(c) && DigitValue(c) == v
  {
    ('0' as int + v) as char
  }

  /** The value of a string of decimal digits, most significant first. */
  function DigitsValue(s: string): (v: nat)
    requires AllDigits(s)
    decreases |s|
  {
    if s == [] then 0 else DigitsValue(s[..|s| - 1]) * 10 + DigitValue(s[|s| - 1])
  }

  function Pow10(n: nat): (p: nat)
    ensures p >= 1
  {
    if n == 0 then 1 else 10 * Pow10(n - 1)
  }

  /** n digits never denote more than n nines. */
  lemma {:induction false} DigitsValueBelow(s: string)
    requires AllDigits(s)
    ensures DigitsValue(s) < Pow10(|s|)
  {
    if s != [] {
      DigitsValueBelow(s[..|s| - 1]);
    }
  }

  /** Decimal text of a natural number, without leading zeros (Long.toString). */
  function ShowNat(n: nat): (s: string)
    ensures 1 <= |s| && AllDigits(s)
  {
    if n < 10 then [DigitChar(n)] else ShowNat(n / 10) + [DigitChar(n % 10)]
  }

  lemma {:induction false} DigitsValueOfShowNat(n: nat)
    ensures DigitsValue(ShowNat(n)) == n
  {
    var s := ShowNat(n);
    if n >= 10 {
      assert s[..|s| - 1] == ShowNat(n / 10);
      DigitsValueOfShowNat(n / 10);
    }
  }

  lemma ShiftDigit(x: int, p: int, y: int, d: int)
    ensures (x * p + y) * 10 + d == x * (p * 10) + (y * 10 + d)
  {
  }

  /** The value of digits followed by digits. */
  lemma {:induction false} DigitsValueAppend(a: string, b: string)
    requires AllDigits(a) && AllDigits(b)
    ensures AllDigits(a + b) && DigitsValue(a + b) == DigitsValue(a) * Pow10(|b|) + DigitsValue(b)
  {
    if b != [] {
      var front := b[..|b| - 1];
      assert (a + b)[..|a + b| - 1] == a + front;
      DigitsValueAppend(a, front);
      var va, vf, last := DigitsValue(a), DigitsValue(front), DigitValue(b[|b| - 1]);
      assert (a + b)[|a + b| - 1] == b[|b| - 1];
      assert DigitsValue(a + b) == (va * Pow10(|front|) + vf) * 10 + last;
      assert DigitsValue(b) == vf * 10 + last;
      assert Pow10(|b|) == Pow10(|front|) * 10;
      ShiftDigit(va, Pow10(|front|), vf, last);
    } else {
      assert a + b == a;
    }
  }

  /** Two decimal digits, leading zero kept. */
  function TwoDigits(m: int): (s: string)
    requires 0 <= m <= 99
    ensures |s| == 2 && AllDigits(s) && DigitsValue(s) == m
  {
    var s := [DigitChar(m / 10), DigitChar(m % 10)];
    assert s[..1] == [DigitChar(m / 10)] && s[..1][..0] == [];
    assert DigitsValue(s[..1]) == m / 10;
    s
  }

  /** Four decimal digits, leading zeros kept. */
  function FourDigits(y: int): (s: string)
    requires 0 <= y <= 9999
    ensures |s| == 4 && AllDigits(s) && DigitsValue(s) == y
  {
    DigitsValueAppend(TwoDigits(y / 100), TwoDigits(y % 100));
    TwoDigits(y / 100) + TwoDigits(y % 100)
  }

  /** Decimal text of an integer (Integer.toString). */
  function ShowInt(n: int): string {
    if n < 0 then "-" + ShowNat(-n) else ShowNat(n)
  }

  const IntMin := -0x8000_0000
  const IntMax := 0x7fff_ffff
  const LongMin := -0x8000_0000_0000_0000
  const LongMax := 0x7fff_ffff_ffff_ffff

  /**
   * Java's parseInt/parseLong for a type whose range is [lo, hi]: an optional
   * '+' or '-' followed by at least one digit, and a value inside the range;
   * anything else throws NumberFormatException.
   */
  function ParseSigned(s: string, lo: int, hi: int): (r: Outcome<int>)
    ensures r.Ok? ==> lo <= r.value <= hi
    ensures r.Thrown? ==> r.error == NumberFormat
    ensures s == [] || s == "-" || s == "+" ==> r.Thrown?
    ensures s != [] && !AllDigits(if s[0] == '-' || s[0] == '+' then s[1..] else s) ==> r.Thrown?
    ensures s != [] && AllDigits(s) ==>
              r == if lo <= DigitsValue(s) <= hi then Ok(DigitsValue(s)) else Thrown(NumberFormat)
    ensures 2 <= |s| && s[0] == '+' && AllDigits(s[1..]) ==>
              r == if lo <= DigitsValue(s[1..]) <= hi then Ok(DigitsValue(s[1..])) else Thrown(NumberFormat)
    ensures 2 <= |s| && s[0] == '-' && AllDigits(s[1..]) ==>
              r == if lo <= -(DigitsValue(s[1..]) as int) <= hi then Ok(-(DigitsValue(s[1..]) as int)) else Thrown(NumberFormat)
  {
    if s == [] then Thrown(NumberFormat)
    else
      var digits := if s[0] == '-' || s[0] == '+' then s[1..] else s;
      if digits == [] || !AllDigits(digits) then Thrown(NumberFormat)
      else
        var v: int := if s[0] == '-' then -(DigitsValue(digits) as int) else DigitsValue(digits);
        if lo <= v <= hi then Ok(v) else Thrown(NumberFormat)
  }

  /** Integer.parseInt */
  function ParseInt(s: string): Outcome<int> {
    ParseSigned(s, IntMin, IntMax)
  }

  /** Long.parseLong */
  function ParseLong(s: string): Outcome<int> {
    ParseSigned(s, LongMin, LongMax)
  }

  /** Parsing the decimal text of any value in range gives that value back. */
  lemma ParseSignedOfShowInt(n: int, lo: int, hi: int)
    requires lo <= n <= hi
    ensures ParseSigned(ShowInt(n), lo, hi) == Ok(n)
  {
    if n < 0 {
      ParseSignedOfNegative(-n, lo, hi);
    } else {
      DigitsValueOfShowNat(n);
      ParseSignedOfDigits(ShowNat(n), lo, hi);
    }
  }

  lemma ParseSignedOfNegative(n: int, lo: int, hi: int)
    requires n > 0 && lo <= -n <= hi
    ensures ParseSigned("-" + ShowNat(n), lo, hi) == Ok(-n)
  {
    assert ("-" + ShowNat(n))[1..] == ShowNat(n);
    DigitsValueOfShowNat(n);
  }

  /** On digit strings, parsing without a sign is just the digits' value, range permitting. */
  lemma ParseSignedOfDigits(s: string, lo: int, hi: int)
    requires s != [] && AllDigits(s)
    ensures ParseSigned(s, lo, hi) == if lo <= DigitsValue(s) <= hi then Ok(DigitsValue(s)) else Thrown(NumberFormat)
  {
  }

  /** Two's-complement wrap-around of x to 32 bits (Java int arithmetic). */
  function Wrap32(x: int): (r: int)
    ensures IntMin <= r <= IntMax
    ensures (r - x) % 0x1_0000_0000 == 0
    ensures IntMin <= x <= IntMax ==> r == x
  {
    (x - IntMin) % 0x1_0000_0000 + IntMin
  }

  /** Two's-complement wrap-around of x to 64 bits (Java long arithmetic). */
  function Wrap64(x: int): (r: int)
    ensures LongMin <= r <= LongMax
    ensures (r - x) % 0x1_0000_0000_0000_0000 == 0
    ensures LongMin <= x <= LongMax ==> r == x
  {
    (x - LongMin) % 0x1_0000_0000_0000_0000 + LongMin
  }

  /** Java's % operator: the remainder takes the sign of the dividend. */
  function JavaRem(a: int, b: int): (r: int)
    requires b > 0
    ensures -b < r < b
    ensures a >= 0 ==> 0 <= r
    ensures a <= 0 ==> r <= 0
    ensures (a - r) % b == 0
  {
    var r := if a >= 0 then a % b else -((-a) % b);
    RemCongruent(a, b);
    r
  }

  lemma RemCongruent(a: int, b: int)
    requires b > 0
    ensures (a - a % b) % b == 0
    ensures (a + (-a) % b) % b == 0
  {
    assert a - a % b == (a / b) * b;
    MultipleRem(a / b, b);
    assert a + (-a) % b == (-((-a) / b)) * b;
    MultipleRem(-((-a) / b), b);
  }

  lemma MultipleRem(k: int, b: int)
    requires b > 0
    ensures (k * b) % b == 0
  {
    var q, m := (k * b) / b, (k * b) % b;
    assert k * b == q * b + m && 0 <= m < b;
    assert (k - q) * b == m;
    if k - q >= 1 {
      assert false;
    } else if k - q <= -1 {
      assert false;
    }
  }

  /** String.indexOf for a character that occurs. */
  function IndexOf(s: string, c: char): (i: nat)
    requires c in s
    ensures i < |s| && s[i] == c && c !in s[..i]
  {
    if s[0] == c then 0 else
      assert c in s[1..] by { var k :| 0 <= k < |s| && s[k] == c; assert s[1..][k - 1] == c; }
      var j := IndexOf(s[1..], c);
      assert s[..j + 1] == [s[0]] + s[1..][..j];
      j + 1
  }

  /** indexOf finds the first occurrence and no other. */
  lemma IndexOfFirst(s: string, c: char, j: nat)
    requires j < |s| && s[j] == c && c !in s[..j]
    ensures IndexOf(s, c) == j
  {
    var i := IndexOf(s, c);
    if i < j {
      assert false;
    } else if j < i {
      assert false;
    }
  }

  predicate StartsWith(s: string, prefix: string) {
    |prefix| <= |s| && s[..|prefix|] == prefix
  }

  // ---------------------------------------------------------------------
  // Normalisation

  predicate IsSeparator(c: char) {
    c == ' ' || c == ',' || c == '_'
  }

  /** String.replace(c, ""): every occurrence of c removed. */
  function RemoveChar(s: string, c: char): (r: string)
    ensures forall x :: x in r <==> x in s && x != c
  {
    if s == [] then [] else
      assert s == [s[0]] + s[1..];
      (if s[0] == c then [] else [s[0]]) + RemoveChar(s[1..], c)
  }

  /** The parser's first step: s.replace(" ", "").replace(",", "").replace("_", ""). */
  function Normalize(s: string): (r: string)
    ensures forall x :: x in r <==> x in s && !IsSeparator(x)
  {
    RemoveChar(RemoveChar(RemoveChar(s, ' '), ','), '_')
  }

  /** Reference definition: the characters of s that are not separators, in order. */
  function KeptCharacters(s: string): (r: string) {
    if s == [] then [] else (if IsSeparator(s[0]) then [] else [s[0]]) + KeptCharacters(s[1..])
  }

  lemma {:induction false} RemoveCharAppend(a: string, b: string, c: char)
    ensures RemoveChar(a + b, c) == RemoveChar(a, c) + RemoveChar(b, c)
  {
    if a != [] {
      assert (a + b)[1..] == a[1..] + b;
      RemoveCharAppend(a[1..], b, c);
    } else {
      assert a + b == b;
    }
  }

  /** The three chained replaces remove exactly the separators and keep everything else in order. */
  lemma {:induction false} NormalizeKeepsNonSeparators(s: string)
    ensures Normalize(s) == KeptCharacters(s)
  {
    if s != [] {
      var x, rest := s[0], s[1..];
      assert s == [x] + rest;
      RemoveCharAppend([x], rest, ' ');
      RemoveCharAppend(RemoveChar([x], ' '), RemoveChar(rest, ' '), ',');
      RemoveCharAppend(RemoveChar(RemoveChar([x], ' '), ','), RemoveChar(RemoveChar(rest, ' '), ','), '_');
      NormalizeKeepsNonSeparators(rest);
    }
  }

  lemma {:induction false} KeptCharactersAppend(a: string, b: string)
    ensures KeptCharacters(a + b) == KeptCharacters(a) + KeptCharacters(b)
  {
    if a != [] {
      assert (a + b)[1..] == a[1..] + b;
      KeptCharactersAppend(a[1..], b);
    } else {
      assert a + b == b;
    }
  }

  /** Nothing but separators is removed: a string without them is unchanged. */
  lemma {:induction false} KeptCharactersOfPlainText(s: string)
    requires forall i :: 0 <= i < |s| ==> !IsSeparator(s[i])
    ensures KeptCharacters(s) == s
  {
    if s != [] {
      KeptCharactersOfPlainText(s[1..]);
    }
  }

  /** A text of separators only is removed entirely. */
  lemma {:induction false} KeptCharactersOfSeparators(s: string)
    requires forall i :: 0 <= i < |s| ==> IsSeparator(s[i])
    ensures KeptCharacters(s) == []
  {
    if s != [] {
      KeptCharactersOfSeparators(s[1..]);
    }
  }

  /** Every separator is removed. */
  lemma {:induction false} KeptCharactersHasNoSeparator(s: string)
    ensures forall i :: 0 <= i < |KeptCharacters(s)| ==> !IsSeparator(KeptCharacters(s)[i])
  {
    if s != [] {
      KeptCharactersHasNoSeparator(s[1..]);
    }
  }

  /** Normalising twice is normalising once. */
  lemma NormalizeIdempotent(s: string)
    ensures Normalize(Normalize(s)) == Normalize(s)
  {
    NormalizeKeepsNonSeparators(s);
    NormalizeKeepsNonSeparators(Normalize(s));
    KeptCharactersHasNoSeparator(s);
    KeptCharactersOfPlainText(KeptCharacters(s));
  }

  /** Separators are interchangeable: swapping one for another never changes the normalised text. */
  lemma SeparatorsInterchangeable(a: string, b: string, c: char, d: char)
    requires IsSeparator(c) && IsSeparator(d)
    ensures Normalize(a + [c] + b) == Normalize(a + [d] + b)
  {
    NormalizeKeepsNonSeparators(a + [c] + b);
    NormalizeKeepsNonSeparators(a + [d] + b);
    KeptCharactersAppend(a + [c], b);
    KeptCharactersAppend(a, [c]);
    KeptCharactersAppend(a + [d], b);
    KeptCharactersAppend(a, [d]);
  }
}
