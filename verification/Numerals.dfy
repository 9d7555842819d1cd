/** Numbers and their text: digits in any base up to sixteen, and decimal text that reads back. */
module Numerals {
  predicate IsDigit(c: char) {
    '0' <= c <= '9'
  }

  predicate IsHexDigit(c: char) {
    IsDigit(c) || 'a' <= c <= 'f' || 'A' <= c <= 'F'
  }

  function DigitValue(c: char): nat {
    if IsDigit(c) then (c as int - '0' as int)
    else if 'a' <= c <= 'f' then (c as int - 'a' as int) + 10
    else if 'A' <= c <= 'F' then (c as int - 'A' as int) + 10
    else 0
  }

  function NumberValue(t: string, base: nat): nat {
    if t == "" then 0 else NumberValue(t[..|t| - 1], base) * base + DigitValue(t[|t| - 1])
  }

  predicate AllDigits(t: string) {
    forall k | 0 <= k < |t| :: IsDigit(t[k])
  }

  function Digit(d: nat): (c: char)
    requires d < 10
    ensures IsDigit(c) && DigitValue(c) == d
  {
    '0' + d as char
  }

  /** The decimal digits of `u`, none for zero. */
  function Digits(u: nat): string {
    if u == 0 then "" else Digits(u / 10) + [Digit(u % 10)]
  }

  /** The decimal text of `u`. */
  function Decimal(u: nat): string {
    if u == 0 then "0" else Digits(u)
  }

  lemma LastDigit(t: string, c: char, base: nat)
    ensures NumberValue(t + [c], base) == NumberValue(t, base) * base + DigitValue(c)
  {
    assert (t + [c])[..|t|] == t;
  }

  lemma {:induction false} DigitsParse(u: nat)
    ensures NumberValue(Digits(u), 10) == u
  {
    if u > 0 {
      DigitsParse(u / 10);
      hide NumberValue, DigitValue, IsDigit;
      LastDigit(Digits(u / 10), Digit(u % 10), 10);
    }
  }

  lemma {:induction false} DigitsAreDigits(u: nat)
    ensures AllDigits(Digits(u))
    ensures u > 0 ==> Digits(u) != "" && Digits(u)[0] != '0'
  {
    if u > 0 {
      DigitsAreDigits(u / 10);
      hide DigitValue, IsDigit;
      if u < 10 {
        OnlyZeroIsZero(u);
      } else {
        assert Digits(u)[0] == Digits(u / 10)[0];
      }
    }
  }

  lemma OnlyZeroIsZero(u: nat)
    requires 0 < u < 10
    ensures Digit(u) != '0'
  {
    assert DigitValue('0') == 0;
  }

  /** The text determines the number, holds digits only, and has no leading zero. */
  lemma DecimalParses(u: nat)
    ensures Decimal(u) != "" && NumberValue(Decimal(u), 10) == u && AllDigits(Decimal(u))
    ensures |Decimal(u)| > 1 ==> Decimal(u)[0] != '0'
  {
    DigitsParse(u);
    DigitsAreDigits(u);
    if u == 0 {
      LastDigit("", '0', 10);
      assert "" + ['0'] == "0" && NumberValue("", 10) == 0;
    }
  }

  // ----- signed numbers -----

  function Signed(n: int): string {
    if n < 0 then "-" + Decimal(-n) else Decimal(n)
  }

  /** Reading a signed decimal numeral back. */
  function Parse(t: string): int {
    var negative := t != "" && t[0] == '-';
    var magnitude: int := NumberValue(if negative then t[1..] else t, 10);
    if negative then -magnitude else magnitude
  }

  /** The text determines the number, has no leading zero, and holds digits only after the sign. */
  lemma SignedParses(n: int)
    ensures Parse(Signed(n)) == n
    ensures var digits := if n < 0 then Signed(n)[1..] else Signed(n);
            digits != "" && AllDigits(digits) && (|digits| > 1 ==> digits[0] != '0')
  {
    var u := if n < 0 then -n else n;
    DecimalParses(u);
    hide NumberValue, Decimal;
    if n < 0 {
      assert Signed(n)[1..] == Decimal(u);
    } else {
      assert Decimal(u)[0] != '-';
    }
  }
}
