/** Integers as JavaScript prints them in base ten, and digit strings as parseInt reads them. */
module Decimal {
  predicate IsDigit(c: char) {
    '0' <= c <= '9'
  }

  predicate AllDigits(s: string) {
    forall c | c in s :: IsDigit(c)
  }

  function Digit(n: nat): (c: char)
    requires n < 10
    ensures IsDigit(c)
  {
    "0123456789"[n]
  }

  function DigitValue(c: char): (n: nat)
    requires IsDigit(c)
    ensures n < 10 && Digit(n) == c
  {
    (c as int) - ('0' as int)
  }

  function Digits(n: nat): (s: string)
    ensures |s| > 0 && AllDigits(s)
  {
    if n < 10 then [Digit(n)] else Digits(n / 10) + [Digit(n % 10)]
  }

  function ToString(n: int): string {
    if n < 0 then "-" + Digits(-n) else Digits(n)
  }

  function ParseInt(s: string): nat
    requires AllDigits(s)
  {
    if s == "" then 0 else 10 * ParseInt(s[..|s| - 1]) + DigitValue(s[|s| - 1])
  }

  lemma ParseLast(s: string, c: char)
    requires AllDigits(s) && IsDigit(c)
    ensures AllDigits(s + [c]) && ParseInt(s + [c]) == 10 * ParseInt(s) + DigitValue(c)
  {
    assert (s + [c])[..|s|] == s;
  }

  lemma DigitOfValue(n: nat)
    requires n < 10
    ensures DigitValue(Digit(n)) == n
  {
  }

  lemma {:induction false} ParseOfDigits(n: nat)
    ensures ParseInt(Digits(n)) == n
  {
    DigitOfValue(n % 10);
    if n < 10 {
      ParseLast("", Digit(n));
      assert "" + [Digit(n)] == [Digit(n)];
    } else {
      ParseOfDigits(n / 10);
      ParseLast(Digits(n / 10), Digit(n % 10));
      hide ParseInt, DigitValue, Digit;
    }
  }

  lemma {:induction false} LeadingZero(s: string)
    requires AllDigits(s)
    ensures ParseInt("0" + s) == ParseInt(s)
  {
    var z := "0" + s;
    if s == "" {
      ParseLast("", '0');
      assert z == "" + "0";
    } else {
      LeadingZero(s[..|s| - 1]);
      assert z[..|z| - 1] == "0" + s[..|s| - 1];
    }
  }

  // ----- The two-digit padding of the date printer -----

  function Padded(n: int): string {
    if n < 10 then "0" + ToString(n) else ToString(n)
  }

  lemma PaddedField(n: int)
    requires 0 <= n < 100
    ensures |Padded(n)| == 2 && AllDigits(Padded(n)) && ParseInt(Padded(n)) == n
  {
    ParseOfDigits(n);
    LeadingZero(Digits(n));
  }

  lemma PaddedYear(y: int)
    requires 1000 <= y <= 9999
    ensures |Padded(y)| == 4 && AllDigits(Padded(y)) && ParseInt(Padded(y)) == y
  {
    ParseOfDigits(y);
    assert |Digits(y / 1000)| == 1;
    assert |Digits(y / 100)| == 2 by { assert y / 100 / 10 == y / 1000; }
    assert |Digits(y / 10)| == 3 by { assert y / 10 / 10 == y / 100; }
  }

  /** No other year, whatever its sign or length, prints like one of four digits. */
  lemma PaddedYearUnique(x: int, y: int)
    requires 1000 <= y <= 9999 && Padded(x) == Padded(y)
    ensures x == y
  {
    PaddedYear(y);
    assert Padded(y)[1] in Padded(y);
    if x >= 0 {
      ParseOfDigits(x);
      LeadingZero(Digits(x));
    }
  }
}
