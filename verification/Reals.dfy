/** Absolute value, square and ceiling of reals, and the signs of products. */
module Reals {

  function Abs(r: real): real {
    if r < 0.0 then -r else r
  }

  function Square(r: real): real {
    r * r
  }

  /** The least integer not below r. */
  function Ceiling(r: real): (n: int)
    ensures n as real >= r && (n - 1) as real < r
  {
    if r == r.Floor as real then r.Floor else r.Floor + 1
  }

  lemma NonnegativeProduct(u: real, v: real)
    requires u >= 0.0 && v >= 0.0
    ensures u * v >= 0.0
  {
  }

  lemma PositiveProduct(u: real, v: real)
    requires u > 0.0 && v > 0.0
    ensures u * v > 0.0
  {
  }

  lemma PositiveNamed(u: real, v: real, w: real)
    requires u > 0.0 && v > 0.0 && w == u * v
    ensures w > 0.0
  {
  }

  lemma SquarePositive(u: real)
    requires u > 0.0
    ensures Square(u) > 0.0
  {
    PositiveNamed(u, u, Square(u));
  }

  lemma NegatedSquare(u: real)
    ensures Square(-u) == Square(u)
  {
  }

  lemma SquareNonnegative(u: real)
    ensures Square(u) >= 0.0
    ensures Square(u) == 0.0 <==> u == 0.0
  {
    if u > 0.0 {
      SquarePositive(u);
    } else if u < 0.0 {
      SquarePositive(-u);
      NegatedSquare(u);
      hide Square;
    }
  }

  lemma CancelFactor(u: real, v: real, x: real)
    requires u * x == v * x && x != 0.0
    ensures u == v
  {
  }

  lemma Distribute(c: real, u: real, v: real)
    ensures c * (u + v) == c * u + c * v
  {
  }
}
