/**
  Exact-arithmetic stand-ins for the C library's number handling used by the
  pinball agent: the rounding of `round()` and of printf's `%.2f`, the
  float-to-int conversion, and decimal digit strings.  Floating point values
  are modelled as `real`.
 */
module Numeric {

  /** Box2D's `b2Vec2`. */
  datatype Vec2 = Vec2(x: real, y: real)

  function Abs(x: real): (r: real)
    ensures r >= 0.0 && (r == x || r == -x)
  {
    if x < 0.0 then -x else x
  }

  /** True when `x` has no fractional part. */
  predicate IsIntegral(x: real) {
    x.Floor as real == x
  }

  /** C's `round`: nearest integer, halfway cases away from zero. */
  function RoundHalfAway(x: real): (k: int)
    ensures Abs(k as real - x) <= 0.5
    ensures Abs(k as real - x) == 0.5 ==> Abs(k as real) > Abs(x)
  {
    if x >= 0.0 then (x + 0.5).Floor else -((-x + 0.5).Floor)
  }

  /** Nearest integer, halfway cases to the even neighbour (the rounding
      glibc's printf applies to an exactly representable tie). */
  function RoundHalfEven(x: real): (k: int)
    ensures Abs(k as real - x) <= 0.5
    ensures Abs(k as real - x) == 0.5 ==> k % 2 == 0
  {
    var f := (x + 0.5).Floor;
    if f as real == x + 0.5 && f % 2 != 0 then f - 1 else f
  }

  /** The float-to-int conversion of C++: truncation toward zero. */
  function Truncate(x: real): (k: int)
    ensures Abs(k as real) <= Abs(x) < Abs(k as real) + 1.0
    ensures x >= 0.0 ==> k >= 0
    ensures x <= 0.0 ==> k <= 0
  {
    if x >= 0.0 then x.Floor else -((-x).Floor)
  }

  /** Rounding an integral value gives that value back, with either rule. */
  lemma RoundIntegral(k: int)
    ensures RoundHalfAway(k as real) == k
    ensures RoundHalfEven(k as real) == k
  {
    var x := k as real;
    assert (x + 0.5).Floor == k;
    if k < 0 {
      assert (-x + 0.5).Floor == -k;
    }
  }

  /** A value rounded half-to-even stays at or below an odd bound `b` exactly
      when it lies strictly below `b + 1/2` (the tie goes up to `b + 1`). */
  lemma RoundHalfEvenAtMostOdd(x: real, b: int)
    requires b % 2 != 0
    ensures RoundHalfEven(x) <= b <==> x < b as real + 0.5
  {
    var f := (x + 0.5).Floor;
    if x < b as real + 0.5 {
      assert f <= b;
    } else {
      assert f >= b + 1;
      if f == b + 1 {
        assert f % 2 == 0;
      }
    }
  }

  /** A value rounded half-to-even stays at or below an even bound `b`
      exactly when it lies at or below `b + 1/2`. */
  lemma RoundHalfEvenAtMostEven(x: real, b: int)
    requires b % 2 == 0
    ensures RoundHalfEven(x) <= b <==> x <= b as real + 0.5
  {
    var f := (x + 0.5).Floor;
    if x <= b as real + 0.5 {
      assert f <= b + 1;
      if f == b + 1 {
        assert f as real == x + 0.5;
        assert f % 2 != 0;
      }
    } else {
      assert f >= b + 1;
      if f == b + 1 {
        assert f as real != x + 0.5;
      }
    }
  }

  /** The decimal digit for `d`. */
  function DigitChar(d: nat): (c: char)
    requires d < 10
    ensures '0' <= c <= '9'
    ensures (c as int) - ('0' as int) == d
  {
    (('0' as int) + d) as char
  }

  predicate IsDigits(s: string) {
    forall i :: 0 <= i < |s| ==> '0' <= s[i] <= '9'
  }

  /** The number a string of decimal digits spells, most significant digit
      first (an empty string reads as 0). */
  function DigitsValue(s: string): (n: nat)
    requires IsDigits(s)
  {
    if |s| == 0 then 0
    else 10 * DigitsValue(s[..|s| - 1]) + ((s[|s| - 1] as int) - ('0' as int))
  }

  /** The decimal text of `n`, without leading zeros (as printf's `%d`). */
  function Decimal(n: nat): (s: string)
    ensures |s| >= 1
    ensures IsDigits(s)
    ensures DigitsValue(s) == n
    decreases n
  {
    if n < 10 then [DigitChar(n)]
    else
      var prefix := Decimal(n / 10);
      var s := prefix + [DigitChar(n % 10)];
      assert s[..|s| - 1] == prefix;
      s
  }

  /** The number of decimal digits of `n`. */
  function DigitCount(n: nat): (k: nat)
    ensures k >= 1
  {
    if n < 10 then 1 else 1 + DigitCount(n / 10)
  }

  lemma {:induction false} DecimalLength(n: nat)
    ensures |Decimal(n)| == DigitCount(n)
    decreases n
  {
    if n >= 10 {
      DecimalLength(n / 10);
    }
  }

  /** `n` has at most `k` digits exactly when it is below `10^k`. */
  lemma {:induction false} DigitCountBound(n: nat, k: nat)
    requires k >= 1
    ensures DigitCount(n) <= k <==> n < Pow10(k)
    decreases n
  {
    assert Pow10(k) == 10 * Pow10(k - 1) >= 10;
    if n >= 10 && k > 1 {
      DigitCountBound(n / 10, k - 1);
      assert n / 10 < Pow10(k - 1) <==> n < Pow10(k);
    }
  }

  function Pow10(k: nat): (p: nat)
    ensures p >= 1
  {
    if k == 0 then 1 else 10 * Pow10(k - 1)
  }

  /** Two decimal digits with a leading zero, as printf's `%02d`. */
  function TwoDigits(n: nat): (s: string)
    requires n < 100
    ensures |s| == 2
    ensures IsDigits(s)
    ensures DigitsValue(s) == n
  {
    var s := [DigitChar(n / 10), DigitChar(n % 10)];
    assert s[..1] == [s[0]];
    assert DigitsValue(s[..1]) == n / 10 by {
      assert s[..1][..0] == [];
    }
    s
  }
}
