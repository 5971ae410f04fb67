/** Products of reals by name, so that a proof can hide them and use their laws
    one at a time; the solver is left with linear arithmetic. */
module Reals {
  function Times(x: real, y: real): real { x * y }

  function Square(x: real): real { x * x }

  function Min(x: real, y: real): real { if y < x then y else x }
  function Max(x: real, y: real): real { if y > x then y else x }

  /** math.sqrt: a function on the reals. */
  type SquareRoot = real -> real

  lemma Commutes(x: real, y: real)
    ensures Times(x, y) == Times(y, x)
  {
  }

  lemma Associates(x: real, y: real, z: real)
    ensures Times(x, Times(y, z)) == Times(Times(x, y), z)
  {
  }

  lemma DistributesSum(a: real, x: real, y: real)
    ensures Times(a, x + y) == Times(a, x) + Times(a, y)
    ensures Times(x + y, a) == Times(x, a) + Times(y, a)
  {
  }

  lemma DistributesDifference(a: real, x: real, y: real)
    ensures Times(a, x - y) == Times(a, x) - Times(a, y)
    ensures Times(x - y, a) == Times(x, a) - Times(y, a)
  {
  }

  lemma TimesConstants(x: real)
    ensures Times(x, 0.0) == 0.0 && Times(0.0, x) == 0.0 && Times(1.0, x) == x && Times(x, 1.0) == x
    ensures Square(0.0) == 0.0
  {
  }

  lemma SquareIsTimes(x: real)
    ensures Square(x) == Times(x, x)
  {
  }

  lemma SquareOfDifference(x: real, y: real)
    ensures Square(x - y) == Square(x) - 2.0 * Times(x, y) + Square(y)
  {
  }

  lemma SquareOfProduct(x: real, y: real)
    ensures Square(Times(x, y)) == Times(Square(x), Square(y))
  {
    hide Times, Square;
    SquareIsTimes(Times(x, y));
    SquareIsTimes(x);
    SquareIsTimes(y);
    Associates(Times(x, y), x, y);
    Associates(x, y, x);
    Commutes(y, x);
    Associates(x, x, y);
    Associates(Times(x, x), y, y);
  }

  lemma SquareNonNegative(x: real)
    ensures Square(x) >= 0.0
  {
  }

  lemma TimesPositive(x: real, y: real)
    requires x > 0.0 && y > 0.0
    ensures Times(x, y) > 0.0
  {
  }

  lemma SquareVanishes(x: real)
    ensures Square(x) == 0.0 <==> x == 0.0
  {
    hide Times, Square;
    TimesConstants(x);
    if x > 0.0 {
      TimesPositive(x, x);
      SquareIsTimes(x);
    } else if x < 0.0 {
      TimesPositive(-x, -x);
      SquareOfNegation(x);
    }
  }

  lemma SquareOfNegation(x: real)
    ensures Times(-x, -x) == Square(x)
  {
  }

  lemma TimesNonNegative(x: real, y: real)
    requires x >= 0.0 && y >= 0.0
    ensures Times(x, y) >= 0.0
  {
  }

  lemma TimesMonotone(k: real, x: real, y: real)
    requires k >= 0.0 && x <= y
    ensures Times(k, x) <= Times(k, y) && Times(x, k) <= Times(y, k)
  {
    hide Times;
    TimesNonNegative(k, y - x);
    DistributesDifference(k, y, x);
    Commutes(k, x);
    Commutes(k, y);
  }

  lemma TimesStrict(x: real, y: real, k: real)
    requires k > 0.0 && x < y
    ensures Times(x, k) < Times(y, k)
  {
    hide Times;
    TimesPositive(y - x, k);
    DistributesDifference(k, y, x);
  }

  lemma Quotient(x: real, y: real)
    requires y != 0.0
    ensures Times(x / y, y) == x
  {
  }
}
