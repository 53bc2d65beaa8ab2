/** strconv.FormatInt in base ten, and its inverse. */
module Decimals {
  import opened Text

  type int32 = x: int | -0x8000_0000 <= x < 0x8000_0000

  const DIGITS := "0123456789"

  function Digits(n: nat): string {
    if n < 10 then [DIGITS[n]] else Digits(n / 10) + [DIGITS[n % 10]]
  }

  function Decimal(n: int): string {
    if n < 0 then "-" + Digits(-n) else Digits(n)
  }

  predicate IsDigit(c: char) {
    '0' <= c <= '9'
  }

  lemma DigitIsDigit(d: nat)
    requires d < 10
    ensures IsDigit(DIGITS[d]) && DIGITS[d] as int - '0' as int == d
  {
    assert DIGITS == ['0', '1', '2', '3', '4', '5', '6', '7', '8', '9'];
  }

  ghost function DigitsValue(s: string): int {
    if s == [] then 0 else DigitsValue(s[..|s| - 1]) * 10 + (s[|s| - 1] as int - '0' as int)
  }

  lemma {:induction false} DigitsRoundTrip(n: nat)
    ensures Digits(n) != [] && (forall c :: c in Digits(n) ==> IsDigit(c))
    ensures DigitsValue(Digits(n)) == n
  {
    DigitIsDigit(n % 10);
    if n < 10 {
      assert Digits(n)[..0] == [];
    } else {
      DigitsRoundTrip(n / 10);
      assert Digits(n)[..|Digits(n)| - 1] == Digits(n / 10);
    }
  }

  /** The text is the number written in base ten: read back it is the number, it has no
  leading zero, and a negative number is its magnitude behind a sign. */
  lemma {:induction false} DecimalReads(n: int)
    ensures n >= 0 ==> DigitsValue(Decimal(n)) == n && forall c :: c in Decimal(n) ==> '0' <= c <= '9'
    ensures n > 0 ==> Decimal(n)[0] != '0'
    ensures n == 0 ==> Decimal(n) == "0"
    ensures n < 0 ==> Decimal(n) == "-" + Decimal(-n)
  {
    DigitsRoundTrip(if n < 0 then -n else n);
    if n >= 10 {
      DecimalReads(n / 10);
      DigitsRoundTrip(n / 10);
    } else if n >= 0 {
      DigitIsDigit(n);
    }
  }

  lemma DecimalInjective(a: int, b: int)
    requires Decimal(a) == Decimal(b)
    ensures a == b
  {
    hide Digits, DigitsValue;
    DigitsRoundTrip(if a < 0 then -a else a);
    DigitsRoundTrip(if b < 0 then -b else b);
    assert a < 0 ==> Decimal(a)[0] == '-' && Decimal(a)[1..] == Digits(-a);
    assert b < 0 ==> Decimal(b)[0] == '-' && Decimal(b)[1..] == Digits(-b);
    assert a >= 0 ==> Decimal(a)[0] in Digits(a);
    assert b >= 0 ==> Decimal(b)[0] in Digits(b);
  }

  /** Decimal text is digits after an optional sign. */
  lemma DecimalText(n: int)
    ensures Decimal(n) != [] && forall c :: c in Decimal(n) ==> c == '-' || IsDigit(c)
    ensures NoControl(Decimal(n)) && NulFree(Decimal(n)) && ':' !in Decimal(n)
    ensures !IsSpace(Decimal(n)[0]) && !IsSpace(Decimal(n)[|Decimal(n)| - 1])
  {
    hide Digits, DigitsValue;
    DigitsRoundTrip(if n < 0 then -n else n);
    var text := Decimal(n);
    assert forall c :: c in text ==> c == '-' || IsDigit(c);
    assert text[0] in text && text[|text| - 1] in text;
  }
}
