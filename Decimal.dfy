/**
 * Decimal text for Java integers: the rendering of `String.valueOf(long)`
 * (also what string concatenation uses for an `int`) and the reading of
 * `Long.parseLong(String)`, which throws `NumberFormatException` on text it
 * does not accept.
 */
module Decimal {
  import opened JavaArith
  import opened Outcomes

  datatype NumberFormatException = NumberFormatException

  predicate IsDigit(c: char) {
    '0' <= c <= '9'
  }

  predicate AllDigits(s: string) {
    forall i :: 0 <= i < |s| ==> IsDigit(s[i])
  }

  function DigitChar(d: nat): (c: char)
    requires d < 10
    ensures IsDigit(c)
  {
    ('0' as int + d) as char
  }

  function DigitValue(c: char): (d: nat)
    requires IsDigit(c)
    ensures d < 10 && DigitChar(d) == c
  {
    (c as int - '0' as int) as nat
  }

  /** The base-ten digits of `n`, most significant first, without leading zeros. */
  function Digits(n: nat): (s: string)
    decreases n
  {
    if n < 10 then [DigitChar(n)] else Digits(n / 10) + [DigitChar(n % 10)]
  }

  /** The number a string of digits denotes, most significant first. */
  function DigitsValue(s: string): (n: nat)
    requires AllDigits(s)
  {
    if s == [] then 0 else 10 * DigitsValue(s[..|s| - 1]) + DigitValue(s[|s| - 1])
  }

  /** `String.valueOf(n)`: an optional minus sign followed by the digits of `|n|`. */
  function DecimalString(n: int): string {
    if n < 0 then "-" + Digits(-n) else Digits(n)
  }

  /**
   * `Long.parseLong(s)`: an optional `-` or `+` sign followed by at least one
   * digit, denoting a value that fits a `long`; anything else throws.
   */
  function ParseLong(s: string): (r: Result<long, NumberFormatException>)
    ensures r.Success? ==> |s| > 0
  {
    if |s| == 0 then Failure(NumberFormatException)
    else
      var negative := s[0] == '-';
      var body := if s[0] == '-' || s[0] == '+' then s[1..] else s;
      if |body| == 0 || !AllDigits(body) then Failure(NumberFormatException)
      else
        var magnitude: int := DigitsValue(body);
        var v := if negative then -magnitude else magnitude;
        if LongMin <= v <= LongMax then Success(v) else Failure(NumberFormatException)
  }

  lemma {:induction false} DigitsAreDigits(n: nat)
    ensures |Digits(n)| > 0 && AllDigits(Digits(n))
    ensures Digits(n)[0] == '0' <==> n == 0
    decreases n
  {
    if n >= 10 {
      DigitsAreDigits(n / 10);
      assert Digits(n)[0] == Digits(n / 10)[0];
    }
  }

  lemma {:induction false} DigitsValueOfDigits(n: nat)
    ensures AllDigits(Digits(n)) && DigitsValue(Digits(n)) == n
    decreases n
  {
    DigitsAreDigits(n);
    if n >= 10 {
      var s := Digits(n);
      DigitsValueOfDigits(n / 10);
      assert s[..|s| - 1] == Digits(n / 10);
      assert DigitValue(s[|s| - 1]) == n % 10;
    }
  }

  /**
   * The rendering is non-empty, starts with `-` exactly when the value is
   * negative, and is otherwise all digits, with a leading zero only for 0.
   */
  lemma DecimalStringShape(n: int)
    ensures var s := DecimalString(n);
      && |s| > 0
      && (s[0] == '-' <==> n < 0)
      && var d := if n < 0 then s[1..] else s;
        |d| > 0 && AllDigits(d) && (d[0] == '0' <==> n == 0)
  {
    if n < 0 {
      DigitsAreDigits(-n);
      assert DecimalString(n)[1..] == Digits(-n);
    } else {
      DigitsAreDigits(n);
    }
  }

  /** `Long.parseLong(String.valueOf(n)) == n` for every `long`. */
  lemma ParseLongDecimalString(n: long)
    ensures ParseLong(DecimalString(n)) == Success(n)
  {
    var s := DecimalString(n);
    if n < 0 {
      var m: nat := -(n as int);
      DigitsValueOfDigits(m);
      assert s[1..] == Digits(m);
    } else {
      DigitsValueOfDigits(n);
      DigitsAreDigits(n);
      assert IsDigit(s[0]);
    }
  }
}
