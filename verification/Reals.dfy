/** Squares and products of exact reals; the laws that need a case split on sign. */
module Reals {

  function Times(x: real, y: real): real {
    x * y
  }

  function Square(x: real): real {
    Times(x, x)
  }

  lemma TimesPositive(x: real, y: real)
    requires (x > 0.0 && y > 0.0) || (x < 0.0 && y < 0.0)
    ensures Times(x, y) > 0.0
  {
    assert x * y > 0.0;
  }

  lemma TimesZero(x: real, y: real)
    requires x == 0.0 || y == 0.0
    ensures Times(x, y) == 0.0
  {
  }

  lemma TimesNegate(x: real, y: real)
    ensures Times(-x, y) == -Times(x, y) && Times(x, y) == Times(y, x)
  {
  }

  lemma SquareSign(x: real)
    ensures Square(x) >= 0.0
    ensures Square(x) == 0.0 <==> x == 0.0
  {
    hide Times;
    if x == 0.0 {
      TimesZero(x, x);
    } else {
      TimesPositive(x, x);
    }
  }
}
