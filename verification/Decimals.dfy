/** `index.toString()`: decimal notation of an integer, and that it can be read back. */
module Decimals {

  const DIGITS: string := "0123456789"

  function Digit(d: nat): (ch: char)
    requires d < 10
    ensures '0' <= ch <= '9'
  {
    DIGITS[d]
  }

  function Natural(n: nat): (s: string)
    ensures |s| > 0
  {
    if n < 10 then [Digit(n)] else Natural(n / 10) + [Digit(n % 10)]
  }

  function Decimal(n: int): (s: string)
    ensures |s| > 0
  {
    if n < 0 then ['-'] + Natural(-n) else Natural(n)
  }

  lemma {:induction false} NaturalText(n: nat)
    ensures forall i :: 0 <= i < |Natural(n)| ==> '0' <= Natural(n)[i] <= '9'
  {
    if n >= 10 {
      NaturalText(n / 10);
    }
  }

  lemma {:induction false} DecimalText(n: int)
    ensures forall i :: 0 <= i < |Decimal(n)| ==> Decimal(n)[i] == '-' || '0' <= Decimal(n)[i] <= '9'
  {
    if n < 0 {
      NaturalText(-n);
    } else {
      NaturalText(n);
    }
  }

  lemma {:induction false} DigitInjective(d: nat, e: nat)
    requires d < 10 && e < 10 && Digit(d) == Digit(e)
    ensures d == e
  {
    assert forall i, j :: 0 <= i < j < 10 ==> DIGITS[i] != DIGITS[j];
  }

  lemma {:induction false} NaturalLength(n: nat)
    ensures |Natural(n)| == 1 <==> n < 10
  {
    if n >= 10 {
      assert |Natural(n / 10)| > 0;
    }
  }

  lemma {:induction false} NaturalInjective(m: nat, n: nat)
    requires Natural(m) == Natural(n)
    ensures m == n
  {
    NaturalLength(m);
    NaturalLength(n);
    if m < 10 {
      assert Natural(m)[0] == Digit(m) && Natural(n)[0] == Digit(n);
      DigitInjective(m, n);
    } else {
      var s := Natural(m);
      assert s[..|s| - 1] == Natural(m / 10) && s[|s| - 1] == Digit(m % 10);
      assert s[..|s| - 1] == Natural(n / 10) && s[|s| - 1] == Digit(n % 10);
      NaturalInjective(m / 10, n / 10);
      DigitInjective(m % 10, n % 10);
    }
  }

  /** Two integers with the same decimal notation are equal. */
  lemma {:induction false} DecimalInjective(m: int, n: int)
    requires Decimal(m) == Decimal(n)
    ensures m == n
  {
    if m >= 0 {
      NaturalText(m);
    }
    if n >= 0 {
      NaturalText(n);
    }
    assert Decimal(m)[0] == '-' <==> m < 0;
    assert Decimal(n)[0] == '-' <==> n < 0;
    if m < 0 {
      assert Decimal(m)[1..] == Natural(-m) && Decimal(n)[1..] == Natural(-n);
      NaturalInjective(-m, -n);
    } else {
      NaturalInjective(m, n);
    }
  }

  // ---------------------------------------------------------------- what the notation says

  /** The value of a row of digits in base ten. */
  function Value(s: string): int {
    if s == "" then 0 else 10 * Value(s[..|s| - 1]) + (s[|s| - 1] as int - '0' as int)
  }

  lemma {:induction false} DigitValue(d: nat)
    requires d < 10
    ensures Digit(d) as int - '0' as int == d
  {
    assert DIGITS[0] == '0' && DIGITS[1] == '1' && DIGITS[2] == '2' && DIGITS[3] == '3' && DIGITS[4] == '4';
    assert DIGITS[5] == '5' && DIGITS[6] == '6' && DIGITS[7] == '7' && DIGITS[8] == '8' && DIGITS[9] == '9';
  }

  /** The notation has the value of the number in base ten, and no leading zero. */
  lemma {:induction false} NaturalReads(n: nat)
    ensures Value(Natural(n)) == n && (n > 0 ==> Natural(n)[0] != '0')
  {
    DigitValue(n % 10);
    var s := Natural(n);
    if n >= 10 {
      NaturalReads(n / 10);
      assert s[..|s| - 1] == Natural(n / 10) && s[|s| - 1] == Digit(n % 10);
    } else {
      assert s[..0] == "" && s[0] == Digit(n);
    }
  }

  lemma {:induction false} BehindSign(s: string)
    ensures (['-'] + s)[0] == '-' && (['-'] + s)[1..] == s
  {
  }

  lemma {:induction false} DecimalReads(n: int)
    ensures if n < 0 then Decimal(n)[0] == '-' && Value(Decimal(n)[1..]) == -n else Value(Decimal(n)) == n
  {
    if n < 0 {
      BehindSign(Natural(-n));
      NaturalReads(-n);
    } else {
      NaturalReads(n);
    }
  }
}
