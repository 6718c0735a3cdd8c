/** Decimal numerals as big.Int reads them in clob/client.go. */
module Decimals {
  import opened Crypto

  predicate IsDigit(c: char) {
    '0' <= c <= '9'
  }

  function DigitsValue(s: string): Option<nat> {
    if s == "" then Some(0) else
      var c := s[|s| - 1];
      match DigitsValue(s[..|s| - 1])
      case None => None
      case Some(v) => if IsDigit(c) then Some(10 * v + (c as int - '0' as int)) else None
  }

  /** big.Int.SetString in base 10: an optional sign and at least one digit. */
  function ParseDecimal(s: string): Option<int> {
    var body := if s != "" && (s[0] == '-' || s[0] == '+') then s[1..] else s;
    if body == "" then None else
      match DigitsValue(body)
      case None => None
      case Some(v) => Some(if s[0] == '-' then 0 - v else v)
  }

  // ----- What numerals there are, and what they stand for -----

  predicate AllDigits(s: string) {
    s != "" && forall i | 0 <= i < |s| :: '0' <= s[i] <= '9'
  }

  /** Digits, with a sign before them or without. */
  predicate IsNumeral(s: string) {
    AllDigits(s) || (s != "" && s[0] in {'+', '-'} && AllDigits(s[1..]))
  }

  lemma {:induction false} DigitsParse(s: string)
    ensures DigitsValue(s).Some? <==> forall i | 0 <= i < |s| :: '0' <= s[i] <= '9'
  {
    if s != "" {
      DigitsParse(s[..|s| - 1]);
    }
  }

  lemma NumeralsParse(s: string)
    ensures ParseDecimal(s).Some? <==> IsNumeral(s)
  {
    DigitsParse(s);
    if s != "" {
      DigitsParse(s[1..]);
    }
  }

  function DigitOf(d: nat): char
    requires d < 10
  {
    "0123456789"[d]
  }

  /** The usual numeral of a natural number. */
  function Digits(n: nat): (s: string)
    ensures AllDigits(s)
  {
    if n < 10 then [DigitOf(n)] else Digits(n / 10) + [DigitOf(n % 10)]
  }

  lemma {:induction false} DigitsRoundTrip(n: nat)
    ensures DigitsValue(Digits(n)) == Some(n)
  {
    if n >= 10 {
      DigitsRoundTrip(n / 10);
      assert Digits(n)[..|Digits(n)| - 1] == Digits(n / 10);
    } else {
      assert Digits(n)[..0] == "";
    }
  }

  /** A number is read back from its numeral, whatever its sign. */
  lemma DecimalRoundTrip(n: nat)
    ensures ParseDecimal(Digits(n)) == Some(n)
    ensures ParseDecimal("-" + Digits(n)) == Some(0 - n) && ParseDecimal("+" + Digits(n)) == Some(n)
  {
    DigitsRoundTrip(n);
    Signed("-", Digits(n));
    Signed("+", Digits(n));
  }

  lemma Signed(sign: string, s: string)
    requires |sign| == 1 && s != ""
    ensures (sign + s)[1..] == s && (sign + s)[0] == sign[0]
  {
  }

  /** Zeros in front change nothing. */
  lemma {:induction false} LeadingZero(s: string)
    ensures DigitsValue("0" + s) == DigitsValue(s)
  {
    if s == "" {
      assert ("0" + s)[..0] == "";
    } else {
      LeadingZero(s[..|s| - 1]);
      assert ("0" + s)[..|"0" + s| - 1] == "0" + s[..|s| - 1];
    }
  }
}
