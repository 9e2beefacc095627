/** Decimal notation of natural numbers, as used in generated names. */
module Decimals {
  function Digit(d: nat): char
    requires d < 10
  {
    "0123456789"[d]
  }

  function Decimal(n: nat): string {
    if n < 10 then [Digit(n)] else Decimal(n / 10) + [Digit(n % 10)]
  }

  lemma {:induction false} DecimalInjective(a: nat, b: nat)
    requires Decimal(a) == Decimal(b)
    ensures a == b
  {
    var x, y := Decimal(a), Decimal(b);
    assert x[|x| - 1] == y[|y| - 1];
    assert a % 10 == b % 10;
    if a >= 10 && b >= 10 {
      assert x[..|x| - 1] == Decimal(a / 10) && y[..|y| - 1] == Decimal(b / 10);
      DecimalInjective(a / 10, b / 10);
    } else if a >= 10 {
      DecimalLength(a / 10);
    } else if b >= 10 {
      DecimalLength(b / 10);
    }
  }

  lemma DecimalLength(n: nat)
    ensures |Decimal(n)| >= 1
  {
  }

  predicate IsDigit(ch: char) {
    '0' <= ch <= '9'
  }

  lemma {:induction false} DecimalDigits(n: nat)
    ensures forall i :: 0 <= i < |Decimal(n)| ==> IsDigit(Decimal(n)[i])
  {
    if n >= 10 {
      DecimalDigits(n / 10);
    }
  }

  lemma HyphenInside(a: string, x: string, b: string, y: string)
    requires a + "-" + x == b + "-" + y && |a| < |b|
    ensures '-' in x
  {
    assert (b + "-" + y)[|b|] == '-';
    assert (a + "-" + x)[|b|] == x[|b| - |a| - 1];
  }

  /** What follows the last hyphen of a text, and what precedes it, can be read off the text. */
  lemma LastHyphenSplits(a: string, x: string, b: string, y: string)
    requires a + "-" + x == b + "-" + y && '-' !in x && '-' !in y
    ensures a == b && x == y
  {
    var s, t := a + "-" + x, b + "-" + y;
    if |a| < |b| {
      HyphenInside(a, x, b, y);
    } else if |b| < |a| {
      HyphenInside(b, y, a, x);
    }
    assert s[..|a|] == a && t[..|b|] == b && s[|a| + 1..] == x && t[|b| + 1..] == y;
  }

  lemma NumbersHaveNoHyphen(n: nat)
    ensures '-' !in Decimal(n)
  {
    DecimalDigits(n);
  }
}
