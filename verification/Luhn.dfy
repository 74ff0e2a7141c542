/** The Luhn check of credit card numbers (ISO/IEC 7812-1, Annex B). */
module Luhn {

  predicate AllDigits(d: seq<int>) {
    forall i :: 0 <= i < |d| ==> 0 <= d[i] <= 9
  }

  /** The digit sum of twice a digit. */
  function Doubled(digit: int): int {
    2 * digit / 10 + 2 * digit % 10
  }

  /** What a digit contributes, by its distance from the right end. */
  function Weighted(digit: int, fromRight: nat): int {
    if fromRight % 2 == 1 then Doubled(digit) else digit
  }

  function LuhnSum(d: seq<int>): int {
    if d == [] then 0 else Weighted(d[0], |d| - 1) + LuhnSum(d[1..])
  }

  predicate LuhnValid(d: seq<int>) {
    LuhnSum(d) % 10 == 0
  }

  lemma {:induction false} DoubledByHand(digit: int)
    requires 0 <= digit <= 9
    ensures Doubled(digit) == if digit * 2 > 9 then digit * 2 - 9 else digit * 2
  {
  }

  /** The loop of the detector, from the right end. */
  method LuhnCheck(d: seq<int>) returns (valid: bool)
    requires AllDigits(d)
    ensures valid <==> LuhnValid(d)
  {
    var sum := 0;
    var shouldDouble := false;
    var i := |d| - 1;
    while i >= 0
      invariant -1 <= i < |d|
      invariant sum == LuhnSum(d[i + 1..])
      invariant shouldDouble <==> (|d| - 1 - i) % 2 == 1
    {
      var digit := d[i];
      if shouldDouble {
        digit := digit * 2;
        if digit > 9 {
          digit := digit - 9;
        }
      }
      DoubledByHand(d[i]);
      assert digit == Weighted(d[i], |d| - 1 - i);
      assert d[i..][1..] == d[i + 1..];
      sum := sum + digit;
      shouldDouble := !shouldDouble;
      i := i - 1;
    }
    assert d[0..] == d;
    valid := sum % 10 == 0;
  }

  // ---------------------------------------------------------------- what the digits count

  /** Two more digits on the right leave what the others contribute as it was. */
  lemma {:induction false} TwoMoreDigits(d: seq<int>, x: int, y: int)
    ensures LuhnSum(d + [x, y]) == LuhnSum(d) + LuhnSum([x, y])
  {
    var e := d + [x, y];
    if d == [] {
      assert e == [x, y];
    } else {
      TwoMoreDigits(d[1..], x, y);
      assert e[1..] == d[1..] + [x, y];
    }
  }

  lemma {:induction false} LastTwo(x: int, y: int)
    requires 0 <= x <= 9
    ensures LuhnSum([x, y]) == (if 2 * x > 9 then 2 * x - 9 else 2 * x) + y && LuhnSum([y]) == y
  {
    DoubledByHand(x);
    assert [x, y][1..] == [y] && [y][1..] == [];
    assert LuhnSum([y]) == Weighted(y, 0) + LuhnSum([]);
  }

  /** The check digit: the last digit counts once; the one before it counts twice, less nine when that is more
    than nine; and so on in pairs to the left. */
  lemma {:induction false} CheckDigit(d: seq<int>, x: int, y: int)
    requires 0 <= x <= 9
    ensures LuhnSum([]) == 0 && LuhnSum([y]) == y
    ensures LuhnSum(d + [x, y]) == LuhnSum(d) + (if 2 * x > 9 then 2 * x - 9 else 2 * x) + y
  {
    TwoMoreDigits(d, x, y);
    LastTwo(x, y);
  }

  /** Every row of digits can be completed by exactly one check digit. */
  lemma {:induction false} OneCheckDigit(d: seq<int>, x: int)
    requires 0 <= x <= 9
    ensures LuhnValid(d + [x]) <==> x == (10 - LuhnSum(d + [0]) % 10) % 10
  {
    LastDigitCountsOnce(d, x);
  }

  lemma {:induction false} LastDigitCountsOnce(d: seq<int>, x: int)
    ensures LuhnSum(d + [x]) == LuhnSum(d + [0]) + x
  {
    ChangeOne(d + [0], |d|, x);
    assert (d + [0])[|d| := x] == d + [x];
  }

  // ---------------------------------------------------------------- what the check detects

  /** Changing one digit changes the sum by the difference of the contributions. */
  lemma {:induction false} ChangeOne(d: seq<int>, k: nat, x: int)
    requires k < |d|
    ensures LuhnSum(d[k := x]) == LuhnSum(d) + Weighted(x, |d| - 1 - k) - Weighted(d[k], |d| - 1 - k)
  {
    if k == 0 {
      assert d[k := x][1..] == d[1..];
    } else {
      ChangeOne(d[1..], k - 1, x);
      assert d[k := x][1..] == d[1..][k - 1 := x];
    }
  }

  lemma {:induction false} ContributionsDiffer(x: int, y: int, fromRight: nat)
    requires 0 <= x <= 9 && 0 <= y <= 9 && x != y
    ensures (Weighted(x, fromRight) - Weighted(y, fromRight)) % 10 != 0
  {
    if fromRight % 2 == 1 {
      DoubledByHand(x);
      DoubledByHand(y);
    }
  }

  lemma {:induction false} StillDivisible(sum: int, change: int, changed: int)
    requires sum % 10 == 0 && changed == sum + change
    ensures changed % 10 == 0 <==> change % 10 == 0
  {
  }

  /** One wrong digit is always noticed. */
  lemma {:induction false} OneWrongDigit(d: seq<int>, k: nat, x: int)
    requires AllDigits(d) && LuhnValid(d) && k < |d| && 0 <= x <= 9 && x != d[k]
    ensures !LuhnValid(d[k := x])
  {
    ChangeOne(d, k, x);
    var p := |d| - 1 - k;
    ContributionsDiffer(x, d[k], p);
    StillDivisible(LuhnSum(d), Weighted(x, p) - Weighted(d[k], p), LuhnSum(d[k := x]));
  }

  /** Two adjacent digits exchanged are noticed, unless they are equal, or 0 and 9. */
  lemma {:induction false} AdjacentSwap(d: seq<int>, k: nat)
    requires AllDigits(d) && LuhnValid(d) && k + 1 < |d|
    ensures LuhnValid(d[k := d[k + 1]][k + 1 := d[k]]) <==>
              d[k] == d[k + 1] || (d[k] == 0 && d[k + 1] == 9) || (d[k] == 9 && d[k + 1] == 0)
  {
    var a, b := d[k], d[k + 1];
    ChangeOne(d, k, b);
    ChangeOne(d[k := b], k + 1, a);
    var p := |d| - 2 - k;
    SwapDifference(a, b, p);
    StillDivisible(LuhnSum(d), Weighted(b, p + 1) - Weighted(a, p + 1) + Weighted(a, p) - Weighted(b, p),
                   LuhnSum(d[k := b][k + 1 := a]));
  }

  lemma {:induction false} SwapDifference(a: int, b: int, p: nat)
    requires 0 <= a <= 9 && 0 <= b <= 9
    ensures (Weighted(b, p + 1) - Weighted(a, p + 1) + Weighted(a, p) - Weighted(b, p)) % 10 == 0 <==>
              a == b || (a == 0 && b == 9) || (a == 9 && b == 0)
  {
    DoubledByHand(a);
    DoubledByHand(b);
  }
}
