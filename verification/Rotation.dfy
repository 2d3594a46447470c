/** One Jacobi rotation of a symmetric matrix
    (src/envresearch/econometrics/_valuation_diagnostics.py, lines 298-310). */
module Rotation {
  import opened Reals
  import opened Sums
  import opened Quadratic

  /** All that the source's angle supplies: a point on the unit circle that
      annihilates the entry lr between the diagonal entries ll and rr. */
  ghost predicate IsRotation(c: real, s: real, ll: real, lr: real, rr: real) {
    c * c + s * s == 1.0 && (c * c - s * s) * lr == s * c * (rr - ll)
  }

  function NewLeft(c: real, s: real, ll: real, lr: real, rr: real): real {
    c * c * ll - 2.0 * (s * c * lr) + s * s * rr
  }

  function NewRight(c: real, s: real, ll: real, lr: real, rr: real): real {
    s * s * ll + 2.0 * (s * c * lr) + c * c * rr
  }

  /** The matrix after the source's cell updates for the pair (l, r). */
  function Rotated(a: Mat, l: int, r: int, c: real, s: real): Mat {
    (i, j) =>
      if i == l && j == l then NewLeft(c, s, a(l, l), a(l, r), a(r, r))
      else if i == r && j == r then NewRight(c, s, a(l, l), a(l, r), a(r, r))
      else if (i == l && j == r) || (i == r && j == l) then 0.0
      else if j == l then c * a(i, l) - s * a(i, r)
      else if i == l then c * a(j, l) - s * a(j, r)
      else if j == r then s * a(i, l) + c * a(i, r)
      else if i == r then s * a(j, l) + c * a(j, r)
      else a(i, j)
  }

  ghost predicate Rotatable(n: nat, a: Mat, l: int, r: int, c: real, s: real) {
    0 <= l < r < n && Symmetric(n, a) && IsRotation(c, s, a(l, l), a(l, r), a(r, r))
  }

  lemma RotatedSymmetric(n: nat, a: Mat, l: int, r: int, c: real, s: real)
    requires Rotatable(n, a, l, r, c, s)
    ensures Symmetric(n, Rotated(a, l, r, c, s))
  {
  }

  // --------------------------------------------------------------------- trace

  function Diagonal(a: Mat): Vec {
    i => a(i, i)
  }

  function Trace(n: nat, a: Mat): real {
    Sum(0, n, Diagonal(a))
  }

  lemma RotatedTrace(n: nat, a: Mat, l: int, r: int, c: real, s: real)
    requires Rotatable(n, a, l, r, c, s)
    ensures Trace(n, Rotated(a, l, r, c, s)) == Trace(n, a)
  {
    hide Sum;
    SumDifferTwo(0, n, l, r, Diagonal(Rotated(a, l, r, c, s)), Diagonal(a));
    CircleCombination(c, s, a(l, l), a(r, r));
  }

  lemma CircleCombination(c: real, s: real, u: real, v: real)
    requires c * c + s * s == 1.0
    ensures c * c * u + s * s * u == u && c * c * v + s * s * v == v
  {
    assert c * c * u + s * s * u == (c * c + s * s) * u;
    assert c * c * v + s * s * v == (c * c + s * s) * v;
  }

  // ------------------------------------------------------------ sums of squares

  function Squares(v: Vec): Vec {
    i => Square(v(i))
  }

  function RowSquares(n: nat, a: Mat): Vec {
    i => Sum(0, n, Squares(Row(a, i)))
  }

  /** The squared Frobenius norm. */
  function Frobenius(n: nat, a: Mat): real {
    Sum(0, n, RowSquares(n, a))
  }

  function OffDiagonal(a: Mat): Mat {
    (i, j) => if i == j then 0.0 else a(i, j)
  }

  /** The sum of squares away from the diagonal. */
  function Off(n: nat, a: Mat): real {
    Frobenius(n, OffDiagonal(a))
  }

  function DiagonalSquares(n: nat, a: Mat): real {
    Sum(0, n, Squares(Diagonal(a)))
  }

  lemma FrobeniusSplits(n: nat, a: Mat)
    ensures Frobenius(n, a) == Off(n, a) + DiagonalSquares(n, a)
  {
    hide Sum;
    forall i | 0 <= i < n
      ensures RowSquares(n, a)(i) == RowSquares(n, OffDiagonal(a))(i) + Squares(Diagonal(a))(i)
    {
      var f, g := Squares(Row(a, i)), Squares(Row(OffDiagonal(a), i));
      SumDifferOne(0, n, i, f, g);
      assert g(i) == Square(Row(OffDiagonal(a), i)(i)) == Square(0.0);
      SquareOfZero();
      assert f(i) == Square(a(i, i));
      assert RowSquares(n, a)(i) == Sum(0, n, f) && RowSquares(n, OffDiagonal(a))(i) == Sum(0, n, g);
    }
    SumAdd(0, n, RowSquares(n, OffDiagonal(a)), Squares(Diagonal(a)), RowSquares(n, a));
  }

  lemma CircleSquares(c: real, s: real, x: real, y: real, u: real, v: real)
    requires c * c + s * s == 1.0 && u == c * x - s * y && v == s * x + c * y
    ensures Square(u) + Square(v) == Square(x) + Square(y)
  {
    assert Square(u) == (c * c) * (x * x) - 2.0 * (c * x * s * y) + (s * s) * (y * y);
    assert Square(v) == (s * s) * (x * x) + 2.0 * (c * x * s * y) + (c * c) * (y * y);
    assert (c * c) * (x * x) + (s * s) * (x * x) == (c * c + s * s) * (x * x);
    assert (c * c) * (y * y) + (s * s) * (y * y) == (c * c + s * s) * (y * y);
  }

  /** The diagonal pair gains exactly twice the square of the annihilated entry.
      With m = c^2 - s^2 and k = 2 s c this is m^2 + k^2 = 1 and m lr = -k d / 2. */
  lemma AnnihilatedPair(c: real, s: real, ll: real, lr: real, rr: real)
    requires IsRotation(c, s, ll, lr, rr)
    ensures Square(NewLeft(c, s, ll, lr, rr)) + Square(NewRight(c, s, ll, lr, rr))
         == Square(ll) + Square(rr) + 2.0 * Square(lr)
  {
    var m, k, d, t := c * c - s * s, 2.0 * (s * c), (ll - rr) / 2.0, (ll + rr) / 2.0;
    DoubleAngle(c, s);
    HalfSums(c, s, ll, lr, rr);
    assert m * lr == -(k * d) by {
      assert s * c * (rr - ll) == -(2.0 * (s * c) * ((ll - rr) / 2.0));
    }
    CircleTurns(m, k, d, lr);
    var w := m * d - k * lr;
    assert Square(t + w) + Square(t - w) == 2.0 * Square(t) + 2.0 * Square(w);
    assert 2.0 * Square(t) + 2.0 * Square(d) == Square(ll) + Square(rr);
  }

  lemma DoubleAngle(c: real, s: real)
    requires c * c + s * s == 1.0
    ensures Square(c * c - s * s) + Square(2.0 * (s * c)) == 1.0
  {
    var u, v := c * c, s * s;
    assert Square(2.0 * (s * c)) == 4.0 * (u * v);
    assert Square(u - v) + 4.0 * (u * v) == Square(u + v);
  }

  lemma HalfSums(c: real, s: real, ll: real, lr: real, rr: real)
    requires c * c + s * s == 1.0
    ensures var m, k, d, t := c * c - s * s, 2.0 * (s * c), (ll - rr) / 2.0, (ll + rr) / 2.0;
            NewLeft(c, s, ll, lr, rr) == t + (m * d - k * lr) && NewRight(c, s, ll, lr, rr) == t - (m * d - k * lr)
  {
    var u, v := c * c, s * s;
    assert s * c * lr == (s * c) * lr;
    assert u * ll + v * rr == (u + v) * ((ll + rr) / 2.0) + (u - v) * ((ll - rr) / 2.0);
    assert v * ll + u * rr == (u + v) * ((ll + rr) / 2.0) - (u - v) * ((ll - rr) / 2.0);
  }

  /** If m^2 + k^2 = 1 and m y = -k x then (m x - k y)^2 = x^2 + y^2. */
  lemma CircleTurns(m: real, k: real, x: real, y: real)
    requires Square(m) + Square(k) == 1.0 && m * y == -(k * x)
    ensures Square(m * x - k * y) == Square(x) + Square(y)
  {
    var z := m * y + k * x;
    assert Square(z) == 0.0;
    assert Square(m * x - k * y) == Square(m) * Square(x) - 2.0 * (m * x * k * y) + Square(k) * Square(y);
    assert Square(z) == Square(m) * Square(y) + 2.0 * (m * x * k * y) + Square(k) * Square(x);
    assert Square(m) * Square(x) + Square(k) * Square(x) == (Square(m) + Square(k)) * Square(x);
    assert Square(m) * Square(y) + Square(k) * Square(y) == (Square(m) + Square(k)) * Square(y);
  }

  lemma RotatedDiagonalSquares(n: nat, a: Mat, l: int, r: int, c: real, s: real)
    requires Rotatable(n, a, l, r, c, s)
    ensures DiagonalSquares(n, Rotated(a, l, r, c, s)) == DiagonalSquares(n, a) + 2.0 * Square(a(l, r))
  {
    hide Sum, Square, NewLeft, NewRight;
    var b := Rotated(a, l, r, c, s);
    var f, g := Squares(Diagonal(b)), Squares(Diagonal(a));
    SumDifferTwo(0, n, l, r, f, g);
    assert f(l) == Square(b(l, l)) && f(r) == Square(b(r, r));
    assert g(l) == Square(a(l, l)) && g(r) == Square(a(r, r));
    AnnihilatedPair(c, s, a(l, l), a(l, r), a(r, r));
  }

  lemma RotatedOtherRow(n: nat, a: Mat, l: int, r: int, c: real, s: real, i: int)
    requires Rotatable(n, a, l, r, c, s) && 0 <= i < n && i != l && i != r
    ensures RowSquares(n, Rotated(a, l, r, c, s))(i) == RowSquares(n, a)(i)
  {
    hide Sum, Square, NewLeft, NewRight;
    var b := Rotated(a, l, r, c, s);
    var f, g := Squares(Row(b, i)), Squares(Row(a, i));
    SumDifferTwo(0, n, l, r, f, g);
    assert f(l) == Square(b(i, l)) && f(r) == Square(b(i, r));
    assert g(l) == Square(a(i, l)) && g(r) == Square(a(i, r));
    assert RowSquares(n, b)(i) == Sum(0, n, f) && RowSquares(n, a)(i) == Sum(0, n, g);
    CircleSquares(c, s, a(i, l), a(i, r), b(i, l), b(i, r));
  }

  function TwoRowSquares(a: Mat, l: int, r: int): Vec {
    j => Square(a(l, j)) + Square(a(r, j))
  }

  lemma TwoRowsSum(n: nat, a: Mat, l: int, r: int)
    ensures Sum(0, n, TwoRowSquares(a, l, r)) == RowSquares(n, a)(l) + RowSquares(n, a)(r)
  {
    hide Sum, Square, NewLeft, NewRight;
    forall j ensures TwoRowSquares(a, l, r)(j) == Squares(Row(a, l))(j) + Squares(Row(a, r))(j) {
    }
    SumAdd(0, n, Squares(Row(a, l)), Squares(Row(a, r)), TwoRowSquares(a, l, r));
    assert RowSquares(n, a)(l) == Sum(0, n, Squares(Row(a, l)));
    assert RowSquares(n, a)(r) == Sum(0, n, Squares(Row(a, r)));
  }

  lemma RotatedTwoRows(n: nat, a: Mat, l: int, r: int, c: real, s: real)
    requires Rotatable(n, a, l, r, c, s)
    ensures var b := Rotated(a, l, r, c, s);
            RowSquares(n, b)(l) + RowSquares(n, b)(r) == RowSquares(n, a)(l) + RowSquares(n, a)(r)
  {
    hide Sum, Square, NewLeft, NewRight;
    var b := Rotated(a, l, r, c, s);
    forall j | 0 <= j < n && j != l && j != r ensures TwoRowSquares(b, l, r)(j) == TwoRowSquares(a, l, r)(j) {
      assert a(j, l) == a(l, j) && a(j, r) == a(r, j);
      CircleSquares(c, s, a(j, l), a(j, r), b(l, j), b(r, j));
      assert TwoRowSquares(b, l, r)(j) == Square(b(l, j)) + Square(b(r, j));
      assert TwoRowSquares(a, l, r)(j) == Square(a(l, j)) + Square(a(r, j));
    }
    assert a(r, l) == a(l, r);
    assert TwoRowSquares(b, l, r)(l) == Square(b(l, l)) + Square(0.0);
    assert TwoRowSquares(b, l, r)(r) == Square(0.0) + Square(b(r, r));
    SumDifferTwo(0, n, l, r, TwoRowSquares(b, l, r), TwoRowSquares(a, l, r));
    AnnihilatedPair(c, s, a(l, l), a(l, r), a(r, r));
    SquareOfZero();
    TwoRowsSum(n, a, l, r);
    TwoRowsSum(n, b, l, r);
  }

  lemma SquareOfZero()
    ensures Square(0.0) == 0.0
  {
  }

  lemma RotatedFrobenius(n: nat, a: Mat, l: int, r: int, c: real, s: real)
    requires Rotatable(n, a, l, r, c, s)
    ensures Frobenius(n, Rotated(a, l, r, c, s)) == Frobenius(n, a)
  {
    hide Sum, RowSquares, Rotated;
    var b := Rotated(a, l, r, c, s);
    forall i | 0 <= i < n && i != l && i != r ensures RowSquares(n, b)(i) == RowSquares(n, a)(i) {
      RotatedOtherRow(n, a, l, r, c, s, i);
    }
    SumDifferTwo(0, n, l, r, RowSquares(n, b), RowSquares(n, a));
    RotatedTwoRows(n, a, l, r, c, s);
  }

  /** A rotation moves exactly 2 a_lr^2 from off the diagonal onto it. */
  lemma RotatedOff(n: nat, a: Mat, l: int, r: int, c: real, s: real)
    requires Rotatable(n, a, l, r, c, s)
    ensures Off(n, Rotated(a, l, r, c, s)) == Off(n, a) - 2.0 * Square(a(l, r))
  {
    hide Off, DiagonalSquares, Frobenius, Square;
    FrobeniusSplits(n, a);
    FrobeniusSplits(n, Rotated(a, l, r, c, s));
    RotatedFrobenius(n, a, l, r, c, s);
    RotatedDiagonalSquares(n, a, l, r, c, s);
  }

  // ------------------------------------------------------------ the largest pair

  ghost predicate LargestPair(n: nat, a: Mat, l: int, r: int) {
    0 <= l < r < n && forall i, j | 0 <= i < j < n :: Abs(a(i, j)) <= Abs(a(l, r))
  }

  lemma AbsSquares(u: real, v: real)
    requires Abs(u) <= Abs(v)
    ensures Square(u) <= Square(v)
  {
    assert Square(v) - Square(u) == (Abs(v) - Abs(u)) * (Abs(v) + Abs(u));
  }

  function Constant(v: real): Vec {
    i => v
  }

  function ConstantExcept(v: real, p: int): Vec {
    i => if i == p then 0.0 else v
  }

  lemma OffRowBound(n: nat, a: Mat, l: int, r: int, i: int)
    requires Symmetric(n, a) && LargestPair(n, a, l, r) && 0 <= i < n
    ensures RowSquares(n, OffDiagonal(a))(i) <= (n - 1) as real * Square(a(l, r))
  {
    hide Sum, Square, NewLeft, NewRight;
    var m := Square(a(l, r));
    SquareOfZero();
    forall j | 0 <= j < n ensures Squares(Row(OffDiagonal(a), i))(j) <= ConstantExcept(m, i)(j) {
      if i != j {
        assert a(i, j) == a(j, i);
        AbsSquares(a(i, j), a(l, r));
      }
    }
    SumMonotone(0, n, Squares(Row(OffDiagonal(a), i)), ConstantExcept(m, i));
    SumDifferOne(0, n, i, Constant(m), ConstantExcept(m, i));
    SumConstant(0, n, m, Constant(m));
    assert n as real * m - m == (n - 1) as real * m;
  }

  lemma OffBound(n: nat, a: Mat, l: int, r: int)
    requires Symmetric(n, a) && LargestPair(n, a, l, r)
    ensures Off(n, a) <= (n * (n - 1)) as real * Square(a(l, r))
  {
    hide Sum, Square, RowSquares;
    var m := (n - 1) as real * Square(a(l, r));
    forall i | 0 <= i < n ensures RowSquares(n, OffDiagonal(a))(i) <= Constant(m)(i) {
      OffRowBound(n, a, l, r, i);
    }
    SumMonotone(0, n, RowSquares(n, OffDiagonal(a)), Constant(m));
    SumConstant(0, n, m, Constant(m));
    CastProduct(n, n - 1, Square(a(l, r)));
  }

  lemma CastProduct(p: int, q: int, v: real)
    ensures p as real * (q as real * v) == (p * q) as real * v
  {
    assert p as real * q as real == (p * q) as real;
  }

  /** With the largest entry chosen, N = n(n-1) steps shrink Off by (N-2)/N each. */
  lemma RotatedOffShrinks(n: nat, a: Mat, l: int, r: int, c: real, s: real)
    requires Rotatable(n, a, l, r, c, s) && LargestPair(n, a, l, r)
    ensures var pairs := (n * (n - 1)) as real;
            pairs * Off(n, Rotated(a, l, r, c, s)) <= (pairs - 2.0) * Off(n, a)
  {
    hide Off, Square;
    var pairs := (n * (n - 1)) as real;
    RotatedOff(n, a, l, r, c, s);
    OffBound(n, a, l, r);
    ShrinkArithmetic(pairs, Off(n, a), Square(a(l, r)));
  }

  lemma ShrinkArithmetic(p: real, off: real, m: real)
    requires off <= p * m
    ensures p * (off - 2.0 * m) <= (p - 2.0) * off
  {
    assert p * (off - 2.0 * m) == p * off - 2.0 * (p * m);
    assert (p - 2.0) * off == p * off - 2.0 * off;
  }

  // --------------------------------------------------------- the quadratic form

  /** The orthogonal change of variables behind the rotation. */
  function Turned(x: Vec, l: int, r: int, c: real, s: real): Vec {
    i => if i == l then c * x(l) + s * x(r) else if i == r then c * x(r) - s * x(l) else x(i)
  }

  lemma TurnPair(c: real, s: real, u: real, v: real, x: real, y: real, bl: real, br: real, yl: real, yr: real)
    requires bl == c * u - s * v && br == s * u + c * v && yl == c * x + s * y && yr == c * y - s * x
    ensures bl * x + br * y == u * yl + v * yr
  {
    assert bl * x + br * y == (c * u) * x - (s * v) * x + (s * u) * y + (c * v) * y;
    assert u * yl + v * yr == (c * u) * x + (s * u) * y + (c * v) * y - (s * v) * x;
  }

  /** Two products of vectors that agree except at two indices, where the sums agree. */
  lemma DotDifferTwo(n: nat, p: int, q: int, u: Vec, v: Vec, s: Vec, t: Vec)
    requires 0 <= p < n && 0 <= q < n && p != q
    requires forall i | 0 <= i < n && i != p && i != q :: Times(u, v)(i) == Times(s, t)(i)
    requires u(p) * v(p) + u(q) * v(q) == s(p) * t(p) + s(q) * t(q)
    ensures Dot(n, u, v) == Dot(n, s, t)
  {
    hide Sum;
    SumDifferTwo(0, n, p, q, Times(u, v), Times(s, t));
  }

  lemma OtherRowCells(n: nat, a: Mat, l: int, r: int, c: real, s: real, x: Vec, i: int)
    requires 0 <= l < r < n && i != l && i != r
    ensures var b, y := Rotated(a, l, r, c, s), Turned(x, l, r, c, s);
            b(i, l) * x(l) + b(i, r) * x(r) == a(i, l) * y(l) + a(i, r) * y(r)
  {
    var b, y := Rotated(a, l, r, c, s), Turned(x, l, r, c, s);
    TurnPair(c, s, a(i, l), a(i, r), x(l), x(r), b(i, l), b(i, r), y(l), y(r));
  }

  lemma OtherRowTerms(a: Mat, l: int, r: int, c: real, s: real, x: Vec, i: int)
    requires i != l && i != r
    ensures var b, y := Rotated(a, l, r, c, s), Turned(x, l, r, c, s);
            forall j | j != l && j != r :: Times(Row(b, i), x)(j) == Times(Row(a, i), y)(j)
  {
    var b, y := Rotated(a, l, r, c, s), Turned(x, l, r, c, s);
    forall j | j != l && j != r ensures Times(Row(b, i), x)(j) == Times(Row(a, i), y)(j) {
      assert b(i, j) == a(i, j) && y(j) == x(j);
    }
  }

  lemma OtherRowProduct(n: nat, a: Mat, l: int, r: int, c: real, s: real, x: Vec, i: int)
    requires Rotatable(n, a, l, r, c, s) && 0 <= i < n && i != l && i != r
    ensures Apply(n, Rotated(a, l, r, c, s), x)(i) == Apply(n, a, Turned(x, l, r, c, s))(i)
  {
    hide Sum, IsRotation;
    var b, y := Rotated(a, l, r, c, s), Turned(x, l, r, c, s);
    OtherRowCells(n, a, l, r, c, s, x, i);
    OtherRowTerms(a, l, r, c, s, x, i);
    hide Rotated, Turned;
    DotDifferTwo(n, l, r, Row(b, i), x, Row(a, i), y);
  }

  /** A combination of rows l and r. */
  function Mixed(a: Mat, l: int, r: int, p: real, q: real): Vec {
    j => p * a(l, j) + q * a(r, j)
  }

  lemma MixedProduct(n: nat, a: Mat, l: int, r: int, p: real, q: real, y: Vec)
    ensures Dot(n, Mixed(a, l, r, p, q), y) == p * Apply(n, a, y)(l) + q * Apply(n, a, y)(r)
  {
    hide Sum;
    DotLinear(0, n, p, Row(a, l), q, Row(a, r), Mixed(a, l, r, p, q), y);
  }

  lemma LeftIdentity(c: real, s: real, ll: real, lr: real, rr: real, x: real, y: real)
    ensures (c * ll + (-s) * lr) * (c * x + s * y) + (c * lr + (-s) * rr) * (c * y - s * x)
         == NewLeft(c, s, ll, lr, rr) * x + ((c * c - s * s) * lr - s * c * (rr - ll)) * y
  {
  }

  lemma RightIdentity(c: real, s: real, ll: real, lr: real, rr: real, x: real, y: real)
    ensures (s * ll + c * lr) * (c * x + s * y) + (s * lr + c * rr) * (c * y - s * x)
         == NewRight(c, s, ll, lr, rr) * y + ((c * c - s * s) * lr - s * c * (rr - ll)) * x
  {
  }

  lemma ProductsAgree(u: real, v: real, p: real, q: real)
    requires u == p && v == q
    ensures u * v == p * q
  {
  }

  lemma VanishingProduct(u: real, v: real)
    requires u == 0.0
    ensures u * v == 0.0
  {
  }

  lemma LeftRowCells(c: real, s: real, ll: real, lr: real, rr: real, x: real, y: real,
                     wl: real, wr: real, yl: real, yr: real)
    requires (c * c - s * s) * lr - s * c * (rr - ll) == 0.0
    requires wl == c * ll + (-s) * lr && wr == c * lr + (-s) * rr && yl == c * x + s * y && yr == c * y - s * x
    ensures NewLeft(c, s, ll, lr, rr) * x == wl * yl + wr * yr
  {
    hide NewLeft;
    LeftIdentity(c, s, ll, lr, rr, x, y);
    VanishingProduct((c * c - s * s) * lr - s * c * (rr - ll), y);
    ProductsAgree(wl, yl, c * ll + (-s) * lr, c * x + s * y);
    ProductsAgree(wr, yr, c * lr + (-s) * rr, c * y - s * x);
  }

  lemma RightRowCells(c: real, s: real, ll: real, lr: real, rr: real, x: real, y: real,
                      wl: real, wr: real, yl: real, yr: real)
    requires (c * c - s * s) * lr - s * c * (rr - ll) == 0.0
    requires wl == s * ll + c * lr && wr == s * lr + c * rr && yl == c * x + s * y && yr == c * y - s * x
    ensures NewRight(c, s, ll, lr, rr) * y == wl * yl + wr * yr
  {
    hide NewRight;
    RightIdentity(c, s, ll, lr, rr, x, y);
    VanishingProduct((c * c - s * s) * lr - s * c * (rr - ll), x);
    ProductsAgree(wl, yl, s * ll + c * lr, c * x + s * y);
    ProductsAgree(wr, yr, s * lr + c * rr, c * y - s * x);
  }

  lemma MixedEntry(n: nat, a: Mat, l: int, r: int, c: real, s: real, j: int)
    requires 0 <= l < r < n && Symmetric(n, a) && 0 <= j < n && j != l && j != r
    ensures Rotated(a, l, r, c, s)(l, j) == Mixed(a, l, r, c, -s)(j)
    ensures Rotated(a, l, r, c, s)(r, j) == Mixed(a, l, r, s, c)(j)
  {
    assert a(j, l) == a(l, j) && a(j, r) == a(r, j);
  }

  lemma RotatedBlock(a: Mat, l: int, r: int, c: real, s: real)
    requires l != r
    ensures var b := Rotated(a, l, r, c, s);
            && b(l, r) == 0.0 && b(r, l) == 0.0
            && b(l, l) == NewLeft(c, s, a(l, l), a(l, r), a(r, r))
            && b(r, r) == NewRight(c, s, a(l, l), a(l, r), a(r, r))
  {
    hide NewLeft, NewRight;
  }

  lemma LeftRowPair(n: nat, a: Mat, l: int, r: int, c: real, s: real, x: Vec)
    requires Rotatable(n, a, l, r, c, s)
    ensures var b, y, w := Rotated(a, l, r, c, s), Turned(x, l, r, c, s), Mixed(a, l, r, c, -s);
            b(l, l) * x(l) + b(l, r) * x(r) == w(l) * y(l) + w(r) * y(r)
  {
    hide NewLeft, NewRight;
    var y, w := Turned(x, l, r, c, s), Mixed(a, l, r, c, -s);
    assert a(r, l) == a(l, r);
    RotatedBlock(a, l, r, c, s);
    VanishingProduct(Rotated(a, l, r, c, s)(l, r), x(r));
    hide Rotated;
    LeftRowCells(c, s, a(l, l), a(l, r), a(r, r), x(l), x(r), w(l), w(r), y(l), y(r));
  }

  lemma LeftRowProduct(n: nat, a: Mat, l: int, r: int, c: real, s: real, x: Vec)
    requires Rotatable(n, a, l, r, c, s)
    ensures var y := Turned(x, l, r, c, s);
            Apply(n, Rotated(a, l, r, c, s), x)(l) == c * Apply(n, a, y)(l) + (-s) * Apply(n, a, y)(r)
  {
    hide Sum, NewLeft, NewRight, IsRotation;
    var b, y, w := Rotated(a, l, r, c, s), Turned(x, l, r, c, s), Mixed(a, l, r, c, -s);
    hide Rotated, Mixed;
    forall j | 0 <= j < n && j != l && j != r ensures Times(Row(b, l), x)(j) == Times(w, y)(j) {
      MixedEntry(n, a, l, r, c, s, j);
      assert y(j) == x(j);
    }
    LeftRowPair(n, a, l, r, c, s, x);
    MixedProduct(n, a, l, r, c, -s, y);
    hide Turned;
    DotDifferTwo(n, l, r, Row(b, l), x, w, y);
  }

  lemma RightRowPair(n: nat, a: Mat, l: int, r: int, c: real, s: real, x: Vec)
    requires Rotatable(n, a, l, r, c, s)
    ensures var b, y, w := Rotated(a, l, r, c, s), Turned(x, l, r, c, s), Mixed(a, l, r, s, c);
            b(r, l) * x(l) + b(r, r) * x(r) == w(l) * y(l) + w(r) * y(r)
  {
    hide NewLeft, NewRight;
    var y, w := Turned(x, l, r, c, s), Mixed(a, l, r, s, c);
    assert a(r, l) == a(l, r);
    RotatedBlock(a, l, r, c, s);
    VanishingProduct(Rotated(a, l, r, c, s)(r, l), x(l));
    hide Rotated;
    RightRowCells(c, s, a(l, l), a(l, r), a(r, r), x(l), x(r), w(l), w(r), y(l), y(r));
  }

  lemma RightRowProduct(n: nat, a: Mat, l: int, r: int, c: real, s: real, x: Vec)
    requires Rotatable(n, a, l, r, c, s)
    ensures var y := Turned(x, l, r, c, s);
            Apply(n, Rotated(a, l, r, c, s), x)(r) == s * Apply(n, a, y)(l) + c * Apply(n, a, y)(r)
  {
    hide Sum, NewLeft, NewRight, IsRotation;
    var b, y, w := Rotated(a, l, r, c, s), Turned(x, l, r, c, s), Mixed(a, l, r, s, c);
    hide Rotated, Mixed;
    forall j | 0 <= j < n && j != l && j != r ensures Times(Row(b, r), x)(j) == Times(w, y)(j) {
      MixedEntry(n, a, l, r, c, s, j);
      assert y(j) == x(j);
    }
    RightRowPair(n, a, l, r, c, s, x);
    MixedProduct(n, a, l, r, s, c, y);
    hide Turned;
    DotDifferTwo(n, l, r, Row(b, r), x, w, y);
  }

  /** The rotated form at x is the original form at the turned vector. */
  lemma RotatedQuad(n: nat, a: Mat, l: int, r: int, c: real, s: real, x: Vec)
    requires Rotatable(n, a, l, r, c, s)
    ensures Quad(n, Rotated(a, l, r, c, s), x) == Quad(n, a, Turned(x, l, r, c, s))
  {
    hide Sum, Rotated, ApplyFrom, IsRotation;
    var b, y := Rotated(a, l, r, c, s), Turned(x, l, r, c, s);
    forall i | 0 <= i < n && i != l && i != r
      ensures Times(x, Apply(n, b, x))(i) == Times(y, Apply(n, a, y))(i)
    {
      OtherRowProduct(n, a, l, r, c, s, x, i);
    }
    TurnedPair(n, a, l, r, c, s, x);
    hide Turned;
    DotDifferTwo(n, l, r, x, Apply(n, b, x), y, Apply(n, a, y));
  }

  lemma TurnedPair(n: nat, a: Mat, l: int, r: int, c: real, s: real, x: Vec)
    requires Rotatable(n, a, l, r, c, s)
    ensures var u, y := Apply(n, Rotated(a, l, r, c, s), x), Turned(x, l, r, c, s);
            x(l) * u(l) + x(r) * u(r) == y(l) * Apply(n, a, y)(l) + y(r) * Apply(n, a, y)(r)
  {
    hide Sum, Rotated, ApplyFrom, IsRotation;
    var u, y := Apply(n, Rotated(a, l, r, c, s), x), Turned(x, l, r, c, s);
    LeftRowProduct(n, a, l, r, c, s, x);
    RightRowProduct(n, a, l, r, c, s, x);
    TurnBack(c, s, x(l), x(r), Apply(n, a, y)(l), Apply(n, a, y)(r), u(l), u(r), y(l), y(r));
  }

  lemma TurnBack(c: real, s: real, x: real, y: real, u: real, v: real, bl: real, br: real, yl: real, yr: real)
    requires bl == c * u + (-s) * v && br == s * u + c * v && yl == c * x + s * y && yr == c * y - s * x
    ensures x * bl + y * br == yl * u + yr * v
  {
    assert x * bl + y * br == (c * x) * u - (s * x) * v + (s * y) * u + (c * y) * v;
    assert yl * u + yr * v == (c * x) * u + (s * y) * u + (c * y) * v - (s * x) * v;
  }
}
