/** Decimal renderings of integers (`str(int)`). */
module Decimal {
  function Digit(d: nat): char
    requires d < 10
  {
    "0123456789"[d]
  }

  function Digits(n: nat): (s: string)
    ensures s != []
    ensures forall i :: 0 <= i < |s| ==> s[i] in "0123456789"
  {
    if n < 10 then [Digit(n)] else Digits(n / 10) + [Digit(n % 10)]
  }

  function IntText(n: int): string {
    if n < 0 then "-" + Digits(-n) else Digits(n)
  }

  lemma {:induction false} DigitsInjective(m: nat, n: nat)
    requires Digits(m) == Digits(n)
    ensures m == n
  {
    var s := Digits(m);
    LastDigit(m);
    LastDigit(n);
    if m >= 10 && n >= 10 {
      assert Digits(m / 10) == s[..|s| - 1] == Digits(n / 10);
      DigitsInjective(m / 10, n / 10);
    }
  }

  lemma LastDigit(n: nat)
    ensures var s := Digits(n);
      s[|s| - 1] == Digit(n % 10) && (n >= 10 ==> Digits(n / 10) == s[..|s| - 1] && |s| > 1) && (n < 10 ==> |s| == 1)
  {
  }

  lemma IntTextInjective(m: int, n: int)
    requires IntText(m) == IntText(n)
    ensures m == n
  {
    SignOf(m);
    SignOf(n);
    if m < 0 {
      assert IntText(m)[1..] == Digits(-m) && IntText(n)[1..] == Digits(-n);
      DigitsInjective(-m, -n);
    } else {
      DigitsInjective(m, n);
    }
  }

  lemma SignOf(n: int)
    ensures IntText(n)[0] == '-' <==> n < 0
  {
  }

  // ---------- Reading the text back ----------

  /** What a row of digits is worth: each one its distance from '0', ten times the worth of what precedes it. */
  function PlaceValue(s: string): int {
    if s == [] then 0 else 10 * PlaceValue(s[..|s| - 1]) + (s[|s| - 1] as int - '0' as int)
  }

  function Reading(s: string): int {
    if s != [] && s[0] == '-' then -PlaceValue(s[1..]) else PlaceValue(s)
  }

  predicate IsDigit(c: char) {
    '0' <= c <= '9'
  }

  /** Digits only, with no leading zero but in "0" itself. */
  predicate IsNatural(s: string) {
    s != [] && (forall i :: 0 <= i < |s| ==> IsDigit(s[i])) && (s[0] == '0' ==> s == "0")
  }

  /** An integer as section 6 of RFC 8259 has it, without fraction and exponent, and without "-0". */
  predicate IsInteger(s: string) {
    IsNatural(s) || (s != [] && s[0] == '-' && IsNatural(s[1..]) && s != "-0")
  }

  lemma DigitIsWorth(d: nat)
    requires d < 10
    ensures IsDigit(Digit(d)) && Digit(d) as int - '0' as int == d
  {
  }

  lemma {:induction false} DigitsMean(n: nat)
    ensures PlaceValue(Digits(n)) == n && IsNatural(Digits(n)) && (n > 0 ==> Digits(n)[0] != '0')
  {
    DigitIsWorth(n % 10);
    if n < 10 {
      assert Digits(n)[..0] == [];
      assert PlaceValue([]) == 0;
    } else {
      DigitsMean(n / 10);
      assert Digits(n)[..|Digits(n)| - 1] == Digits(n / 10);
    }
  }

  lemma NegativeReads(s: string, d: string, n: int)
    requires s == ['-'] + d && d != [] && d[0] != '0' && IsNatural(d) && PlaceValue(d) == n
    ensures IsInteger(s) && Reading(s) == -n
  {
    assert s[1..] == d && s[1] == d[0];
  }

  lemma NaturalReads(s: string)
    requires IsNatural(s)
    ensures IsInteger(s) && Reading(s) == PlaceValue(s)
  {
    assert IsDigit(s[0]);
  }

  /** The text of an integer is an integer's, and reading it by place value gives the integer back. */
  lemma TextMeansNumber(n: int)
    ensures IsInteger(IntText(n)) && Reading(IntText(n)) == n
  {
    if n < 0 {
      DigitsMean(-n);
      NegativeReads(IntText(n), Digits(-n), -n);
    } else {
      DigitsMean(n);
      NaturalReads(IntText(n));
    }
  }
}
