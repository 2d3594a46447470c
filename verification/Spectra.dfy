/** Chains of plane rotations, and what they say about the spectrum of a symmetric
    matrix (src/envresearch/econometrics/_valuation_diagnostics.py, lines 288-311). */
module Spectra {
  import opened Reals
  import opened Sums
  import opened Quadratic
  import opened Rotation

  // -------------------------------------------------------------- chains of turns

  /** A rotation of the plane of coordinates l and r. */
  datatype Turn = Turn(l: int, r: int, c: real, s: real)

  ghost predicate IsTurn(n: nat, t: Turn) {
    0 <= t.l < t.r < n && t.c * t.c + t.s * t.s == 1.0
  }

  ghost predicate AreTurns(n: nat, turns: seq<Turn>) {
    forall i | 0 <= i < |turns| :: IsTurn(n, turns[i])
  }

  function Forth(t: Turn, x: Vec): Vec {
    Turned(x, t.l, t.r, t.c, t.s)
  }

  function Undo(t: Turn, x: Vec): Vec {
    Turned(x, t.l, t.r, t.c, -t.s)
  }

  /** The orthogonal map Q of a chain: the product of its rotations. */
  function Along(turns: seq<Turn>, x: Vec): Vec {
    if turns == [] then x else Along(turns[..|turns| - 1], Forth(turns[|turns| - 1], x))
  }

  /** Its inverse, each rotation turned back. */
  function Back(turns: seq<Turn>, x: Vec): Vec {
    if turns == [] then x else Undo(turns[|turns| - 1], Back(turns[..|turns| - 1], x))
  }

  /** The same vector, as far as n coordinates go. */
  ghost predicate Agree(n: nat, u: Vec, v: Vec) {
    forall i | 0 <= i < n :: u(i) == v(i)
  }

  lemma AgreeChain(n: nat, u: Vec, v: Vec, w: Vec)
    requires Agree(n, u, v) && Agree(n, v, w)
    ensures Agree(n, u, w)
  {
  }

  lemma TurnCongruence(n: nat, t: Turn, u: Vec, v: Vec)
    requires IsTurn(n, t) && Agree(n, u, v)
    ensures Agree(n, Forth(t, u), Forth(t, v)) && Agree(n, Undo(t, u), Undo(t, v))
  {
  }

  lemma {:induction false} ChainCongruence(n: nat, turns: seq<Turn>, u: Vec, v: Vec)
    requires AreTurns(n, turns) && Agree(n, u, v)
    ensures Agree(n, Along(turns, u), Along(turns, v)) && Agree(n, Back(turns, u), Back(turns, v))
  {
    hide Forth, Undo, Agree, IsTurn;
    if turns != [] {
      var init, t := turns[..|turns| - 1], turns[|turns| - 1];
      TurnCongruence(n, t, u, v);
      ChainCongruence(n, init, Forth(t, u), Forth(t, v));
      ChainCongruence(n, init, u, v);
      TurnCongruence(n, t, Back(init, u), Back(init, v));
    }
  }

  lemma CircleUndone(c: real, s: real, u: real, v: real)
    requires c * c + s * s == 1.0
    ensures c * (c * u - s * v) + s * (c * v + s * u) == u
    ensures c * (c * v + s * u) - s * (c * u - s * v) == v
  {
    CircleCombination(c, s, u, v);
    assert c * (c * u - s * v) + s * (c * v + s * u) == c * c * u + s * s * u;
    assert c * (c * v + s * u) - s * (c * u - s * v) == c * c * v + s * s * v;
  }

  lemma TurnUndone(n: nat, t: Turn, x: Vec)
    requires IsTurn(n, t)
    ensures Agree(n, Forth(t, Undo(t, x)), x) && Agree(n, Undo(t, Forth(t, x)), x)
  {
    CircleUndone(t.c, t.s, x(t.l), x(t.r));
    CircleUndone(t.c, -t.s, x(t.l), x(t.r));
  }

  /** The map of a chain is a bijection. */
  lemma {:induction false} ChainUndone(n: nat, turns: seq<Turn>, x: Vec)
    requires AreTurns(n, turns)
    ensures Agree(n, Along(turns, Back(turns, x)), x) && Agree(n, Back(turns, Along(turns, x)), x)
  {
    hide Forth, Undo, Agree, IsTurn;
    if turns == [] {
      AgreeItself(n, x);
    } else {
      var init, t := turns[..|turns| - 1], turns[|turns| - 1];
      TurnUndone(n, t, Back(init, x));
      ChainCongruence(n, init, Forth(t, Undo(t, Back(init, x))), Back(init, x));
      ChainUndone(n, init, x);
      AgreeChain(n, Along(turns, Back(turns, x)), Along(init, Back(init, x)), x);
      ChainUndone(n, init, Forth(t, x));
      TurnCongruence(n, t, Back(init, Along(init, Forth(t, x))), Forth(t, x));
      TurnUndone(n, t, x);
      AgreeChain(n, Back(turns, Along(turns, x)), Undo(t, Forth(t, x)), x);
    }
  }

  lemma AgreeItself(n: nat, x: Vec)
    ensures Agree(n, x, x)
  {
  }

  lemma PairProduct(c: real, s: real, xl: real, xr: real, yl: real, yr: real)
    ensures (c * xl + s * xr) * (c * yl + s * yr) + (c * xr - s * xl) * (c * yr - s * yl)
         == (c * c + s * s) * (xl * yl + xr * yr)
  {
  }

  lemma TurnKeepsProducts(n: nat, t: Turn, x: Vec, y: Vec)
    requires IsTurn(n, t)
    ensures Dot(n, Forth(t, x), Forth(t, y)) == Dot(n, x, y)
  {
    hide Dot;
    PairProduct(t.c, t.s, x(t.l), x(t.r), y(t.l), y(t.r));
    DotDifferTwo(n, t.l, t.r, Forth(t, x), Forth(t, y), x, y);
  }

  /** The map of a chain keeps lengths and angles. */
  lemma {:induction false} ChainKeepsProducts(n: nat, turns: seq<Turn>, x: Vec, y: Vec)
    requires AreTurns(n, turns)
    ensures Dot(n, Along(turns, x), Along(turns, y)) == Dot(n, x, y)
  {
    hide Forth, IsTurn, Dot;
    if turns != [] {
      var init, t := turns[..|turns| - 1], turns[|turns| - 1];
      ChainKeepsProducts(n, init, Forth(t, x), Forth(t, y));
      TurnKeepsProducts(n, t, x, y);
    }
  }

  function Combination(p: real, u: real, q: real, v: real): real {
    p * u + q * v
  }

  function Combined(p: real, x: Vec, q: real, y: Vec): Vec {
    i => Combination(p, x(i), q, y(i))
  }

  lemma TurnLinear(n: nat, t: Turn, p: real, x: Vec, q: real, y: Vec)
    requires IsTurn(n, t)
    ensures Agree(n, Forth(t, Combined(p, x, q, y)), Combined(p, Forth(t, x), q, Forth(t, y)))
    ensures Agree(n, Undo(t, Combined(p, x, q, y)), Combined(p, Undo(t, x), q, Undo(t, y)))
  {
    TurnedLinear(n, t.l, t.r, t.c, t.s, p, x, q, y);
    TurnedLinear(n, t.l, t.r, t.c, -t.s, p, x, q, y);
    hide Turned, Combined, Agree;
  }

  function LeftOf(c: real, s: real, u: real, v: real): real {
    c * u + s * v
  }

  function RightOf(c: real, s: real, u: real, v: real): real {
    c * v - s * u
  }

  lemma TurnedAt(x: Vec, l: int, r: int, c: real, s: real)
    ensures Turned(x, l, r, c, s)(l) == LeftOf(c, s, x(l), x(r))
    ensures l != r ==> Turned(x, l, r, c, s)(r) == RightOf(c, s, x(l), x(r))
    ensures forall i | i != l && i != r :: Turned(x, l, r, c, s)(i) == x(i)
  {
  }

  lemma TurnedLinear(n: nat, l: int, r: int, c: real, s: real, p: real, x: Vec, q: real, y: Vec)
    ensures Agree(n, Turned(Combined(p, x, q, y), l, r, c, s),
                  Combined(p, Turned(x, l, r, c, s), q, Turned(y, l, r, c, s)))
  {
    hide Turned, LeftOf, RightOf, Combination;
    TurnedAt(Combined(p, x, q, y), l, r, c, s);
    TurnedAt(x, l, r, c, s);
    TurnedAt(y, l, r, c, s);
    LinearPair(c, s, p, q, x(l), x(r), y(l), y(r));
  }

  lemma LinearPair(c: real, s: real, p: real, q: real, xl: real, xr: real, yl: real, yr: real)
    ensures LeftOf(c, s, Combination(p, xl, q, yl), Combination(p, xr, q, yr))
         == Combination(p, LeftOf(c, s, xl, xr), q, LeftOf(c, s, yl, yr))
    ensures RightOf(c, s, Combination(p, xl, q, yl), Combination(p, xr, q, yr))
         == Combination(p, RightOf(c, s, xl, xr), q, RightOf(c, s, yl, yr))
  {
  }

  /** The map of a chain, and its inverse, are linear. */
  lemma {:induction false} ChainLinear(n: nat, turns: seq<Turn>, p: real, x: Vec, q: real, y: Vec)
    requires AreTurns(n, turns)
    ensures Agree(n, Along(turns, Combined(p, x, q, y)), Combined(p, Along(turns, x), q, Along(turns, y)))
    ensures Agree(n, Back(turns, Combined(p, x, q, y)), Combined(p, Back(turns, x), q, Back(turns, y)))
  {
    hide Forth, Undo, Agree, IsTurn, Combined;
    if turns == [] {
      AgreeItself(n, Combined(p, x, q, y));
    } else {
      var init, t := turns[..|turns| - 1], turns[|turns| - 1];
      TurnLinear(n, t, p, x, q, y);
      ChainCongruence(n, init, Forth(t, Combined(p, x, q, y)), Combined(p, Forth(t, x), q, Forth(t, y)));
      ChainLinear(n, init, p, Forth(t, x), q, Forth(t, y));
      AgreeChain(n, Along(turns, Combined(p, x, q, y)), Along(init, Combined(p, Forth(t, x), q, Forth(t, y))),
                 Combined(p, Along(turns, x), q, Along(turns, y)));
      ChainLinear(n, init, p, x, q, y);
      TurnCongruence(n, t, Back(init, Combined(p, x, q, y)), Combined(p, Back(init, x), q, Back(init, y)));
      TurnLinear(n, t, p, Back(init, x), q, Back(init, y));
      AgreeChain(n, Back(turns, Combined(p, x, q, y)), Undo(t, Combined(p, Back(init, x), q, Back(init, y))),
                 Combined(p, Back(turns, x), q, Back(turns, y)));
    }
  }

  // ------------------------------------------------------------------- similarity

  /** b = Q^-1 a Q for the orthogonal map Q of the chain. */
  ghost predicate Similar(n: nat, a: Mat, b: Mat, turns: seq<Turn>) {
    forall x: Vec :: SimilarAt(n, a, b, turns, x)
  }

  ghost predicate SimilarAt(n: nat, a: Mat, b: Mat, turns: seq<Turn>, x: Vec) {
    Agree(n, Apply(n, b, x), Back(turns, Apply(n, a, Along(turns, x))))
  }

  lemma ApplyCongruence(n: nat, a: Mat, x: Vec, y: Vec)
    requires Agree(n, x, y)
    ensures Agree(n, Apply(n, a, x), Apply(n, a, y))
  {
    hide Sum;
    forall i | 0 <= i < n ensures Apply(n, a, x)(i) == Apply(n, a, y)(i) {
      DotCongruence(n, Row(a, i), x, Row(a, i), y);
    }
  }

  lemma SimilarItself(n: nat, a: Mat)
    ensures Similar(n, a, a, [])
  {
    hide Apply;
    forall x: Vec ensures SimilarAt(n, a, a, [], x) {
    }
  }

  lemma RotatedApply(n: nat, a: Mat, l: int, r: int, c: real, s: real, x: Vec)
    requires Rotatable(n, a, l, r, c, s)
    ensures var t := Turn(l, r, c, s);
            Agree(n, Apply(n, Rotated(a, l, r, c, s), x), Undo(t, Apply(n, a, Forth(t, x))))
  {
    hide Rotated, Apply, IsRotation;
    LeftRowProduct(n, a, l, r, c, s, x);
    RightRowProduct(n, a, l, r, c, s, x);
    forall i | 0 <= i < n && i != l && i != r
      ensures Apply(n, Rotated(a, l, r, c, s), x)(i) == Apply(n, a, Turned(x, l, r, c, s))(i)
    {
      OtherRowProduct(n, a, l, r, c, s, x, i);
    }
  }

  /** A rotation extends the chain by one turn. */
  lemma SimilarStep(n: nat, start: Mat, a: Mat, turns: seq<Turn>, l: int, r: int, c: real, s: real)
    requires Rotatable(n, a, l, r, c, s) && Similar(n, start, a, turns) && AreTurns(n, turns)
    ensures var longer := turns + [Turn(l, r, c, s)];
            AreTurns(n, longer) && Similar(n, start, Rotated(a, l, r, c, s), longer)
  {
    hide Rotated, Apply, Forth, Undo, Agree;
    var t, b := Turn(l, r, c, s), Rotated(a, l, r, c, s);
    var longer := turns + [t];
    assert longer[..|longer| - 1] == turns;
    forall x: Vec ensures SimilarAt(n, start, b, longer, x) {
      RotatedApply(n, a, l, r, c, s, x);
      assert SimilarAt(n, start, a, turns, Forth(t, x));
      var image := Back(turns, Apply(n, start, Along(turns, Forth(t, x))));
      TurnCongruence(n, t, Apply(n, a, Forth(t, x)), image);
      AgreeChain(n, Apply(n, b, x), Undo(t, Apply(n, a, Forth(t, x))), Undo(t, image));
    }
  }

  /** The image of a turned vector, read in the earlier matrix. */
  lemma SimilarImage(n: nat, a: Mat, b: Mat, turns: seq<Turn>, x: Vec)
    requires AreTurns(n, turns) && Similar(n, a, b, turns)
    ensures Agree(n, Apply(n, a, Along(turns, x)), Along(turns, Apply(n, b, x)))
  {
    hide Apply;
    assert SimilarAt(n, a, b, turns, x);
    var w := Apply(n, a, Along(turns, x));
    ChainCongruence(n, turns, Apply(n, b, x), Back(turns, w));
    ChainUndone(n, turns, w);
  }

  /** The form of b at x is the form of a at Q x. */
  lemma SimilarForm(n: nat, a: Mat, b: Mat, turns: seq<Turn>, x: Vec)
    requires AreTurns(n, turns) && Similar(n, a, b, turns)
    ensures Quad(n, b, x) == Quad(n, a, Along(turns, x))
  {
    hide DotFrom, Apply, AreTurns;
    var y := Along(turns, x);
    SimilarImage(n, a, b, turns, x);
    FormIsDot(n, a, y);
    FormIsDot(n, b, x);
    DotCongruence(n, y, Apply(n, a, y), y, Along(turns, Apply(n, b, x)));
    ChainKeepsProducts(n, turns, x, Apply(n, b, x));
  }

  lemma FormIsDot(n: nat, a: Mat, x: Vec)
    ensures Quad(n, a, x) == Dot(n, x, Apply(n, a, x))
  {
  }

  // ------------------------------------------------------------------- eigenvalues

  /** A unit vector that the matrix only stretches. */
  ghost predicate IsEigenpair(n: nat, a: Mat, lambda: real, v: Vec) {
    Dot(n, v, v) == 1.0 && forall i | 0 <= i < n :: Apply(n, a, v)(i) == lambda * v(i)
  }

  ghost predicate IsEigenvalue(n: nat, a: Mat, lambda: real) {
    exists v: Vec :: IsEigenpair(n, a, lambda, v)
  }

  ghost predicate IsDiagonal(n: nat, b: Mat) {
    forall i, j | 0 <= i < n && 0 <= j < n && i != j :: b(i, j) == 0.0
  }

  /** The chain's images of the unit vectors are orthonormal. */
  lemma Orthonormal(n: nat, turns: seq<Turn>, i: nat, j: nat)
    requires AreTurns(n, turns) && i < n && j < n
    ensures Dot(n, Along(turns, Unit(i)), Along(turns, Unit(j))) == Unit(i)(j)
  {
    hide Dot;
    ChainKeepsProducts(n, turns, Unit(i), Unit(j));
    DotUnit(n, Unit(i), j);
  }

  lemma UnitImage(n: nat, b: Mat, i: nat)
    requires i < n
    ensures Agree(n, Apply(n, b, Unit(i)), Column(b, i))
  {
    hide Sum;
    forall j | 0 <= j < n ensures Apply(n, b, Unit(i))(j) == b(j, i) {
      DotUnit(n, Row(b, j), i);
    }
  }

  /** What is missing for column i of the chain to be an eigenvector of a. */
  function Residual(n: nat, a: Mat, lambda: real, v: Vec): Vec {
    Combined(1.0, Apply(n, a, v), -lambda, v)
  }

  /** In every case, finished or cut short, each diagonal entry misses being an
      eigenvalue by exactly the off-diagonal part of its row. */
  lemma ResidualIsOff(n: nat, a: Mat, b: Mat, turns: seq<Turn>, i: nat)
    requires AreTurns(n, turns) && Similar(n, a, b, turns) && Symmetric(n, b) && i < n
    ensures var v := Along(turns, Unit(i));
            var e := Residual(n, a, b(i, i), v);
            Dot(n, v, v) == 1.0 && Dot(n, e, e) == RowSquares(n, OffDiagonal(b))(i)
  {
    hide Dot, Apply, Combined, AreTurns, Similar, RowSquares;
    var v, w := Along(turns, Unit(i)), Combined(1.0, Column(b, i), -b(i, i), Unit(i));
    var e := Residual(n, a, b(i, i), v);
    Orthonormal(n, turns, i, i);
    ResidualAlong(n, a, b, turns, i);
    DotCongruence(n, e, e, Along(turns, w), Along(turns, w));
    ChainKeepsProducts(n, turns, w, w);
    ColumnOff(n, b, i);
  }

  lemma ResidualAlong(n: nat, a: Mat, b: Mat, turns: seq<Turn>, i: nat)
    requires AreTurns(n, turns) && Similar(n, a, b, turns) && i < n
    ensures var w := Combined(1.0, Column(b, i), -b(i, i), Unit(i));
            Agree(n, Residual(n, a, b(i, i), Along(turns, Unit(i))), Along(turns, w))
  {
    hide Apply, AreTurns, Similar;
    var v := Along(turns, Unit(i));
    SimilarImage(n, a, b, turns, Unit(i));
    UnitImage(n, b, i);
    ChainCongruence(n, turns, Apply(n, b, Unit(i)), Column(b, i));
    ChainLinear(n, turns, 1.0, Column(b, i), -b(i, i), Unit(i));
  }

  lemma ColumnOff(n: nat, b: Mat, i: nat)
    requires Symmetric(n, b) && i < n
    ensures var w := Combined(1.0, Column(b, i), -b(i, i), Unit(i));
            Dot(n, w, w) == RowSquares(n, OffDiagonal(b))(i)
  {
    hide Sum;
    var w := Combined(1.0, Column(b, i), -b(i, i), Unit(i));
    forall j | 0 <= j < n ensures Times(w, w)(j) == Squares(Row(OffDiagonal(b), i))(j) {
      assert b(j, i) == b(i, j);
      CancelDiagonal(b(j, i), b(i, i), Unit(i)(j));
      assert w(j) == OffDiagonal(b)(i, j);
      SquareIs(w(j), OffDiagonal(b)(i, j));
    }
    SumCongruence(0, n, Times(w, w), Squares(Row(OffDiagonal(b), i)));
  }

  lemma SquareIs(u: real, v: real)
    requires u == v
    ensures u * u == Square(v)
  {
  }

  lemma CancelDiagonal(u: real, d: real, e: real)
    ensures e == 0.0 ==> 1.0 * u + (-d) * e == u
    ensures e == 1.0 ==> 1.0 * u + (-d) * e == u - d
  {
  }

  lemma DiagonalImage(n: nat, b: Mat, x: Vec, i: nat)
    requires IsDiagonal(n, b) && i < n
    ensures Apply(n, b, x)(i) == b(i, i) * x(i)
  {
    hide Sum;
    forall j | 0 <= j < n && j != i ensures Times(Row(b, i), x)(j) == 0.0 {
    }
    SumSingle(0, n, i, Times(Row(b, i), x));
  }

  /** Once diagonal, every diagonal entry is an eigenvalue, its column the eigenvector. */
  lemma DiagonalIsEigenvalue(n: nat, a: Mat, b: Mat, turns: seq<Turn>, i: nat)
    requires AreTurns(n, turns) && Similar(n, a, b, turns) && IsDiagonal(n, b) && i < n
    ensures IsEigenpair(n, a, b(i, i), Along(turns, Unit(i)))
  {
    hide Apply, AreTurns, Similar, Dot;
    var v := Along(turns, Unit(i));
    Orthonormal(n, turns, i, i);
    SimilarImage(n, a, b, turns, Unit(i));
    UnitImage(n, b, i);
    var scaled := Combined(b(i, i), Unit(i), 0.0, Unit(i));
    forall j | 0 <= j < n ensures Apply(n, b, Unit(i))(j) == scaled(j) {
      assert Apply(n, b, Unit(i))(j) == b(j, i);
      ScaledUnit(b(i, i), Unit(i)(j), b(j, i));
    }
    ChainCongruence(n, turns, Apply(n, b, Unit(i)), scaled);
    ChainLinear(n, turns, b(i, i), Unit(i), 0.0, Unit(i));
  }

  lemma ScaledUnit(d: real, e: real, u: real)
    requires (e == 1.0 && u == d) || (e == 0.0 && u == 0.0)
    ensures Combination(d, e, 0.0, e) == u
  {
  }

  /** And there are no others. */
  lemma EigenvalueIsDiagonal(n: nat, a: Mat, b: Mat, turns: seq<Turn>, lambda: real, v: Vec) returns (i: nat)
    requires AreTurns(n, turns) && Similar(n, a, b, turns) && IsDiagonal(n, b) && IsEigenpair(n, a, lambda, v)
    ensures i < n && b(i, i) == lambda
  {
    hide Apply, AreTurns, Dot, IsDiagonal;
    var x := Back(turns, v);
    BackScaled(n, a, b, turns, lambda, v);
    ChainUndone(n, turns, v);
    ChainKeepsProducts(n, turns, x, x);
    DotCongruence(n, Along(turns, x), Along(turns, x), v, v);
    i := NonzeroEntry(n, x);
    DiagonalImage(n, b, x, i);
    CancelFactor(b(i, i), lambda, x(i));
  }

  lemma BackScaled(n: nat, a: Mat, b: Mat, turns: seq<Turn>, lambda: real, v: Vec)
    requires AreTurns(n, turns) && Similar(n, a, b, turns) && IsEigenpair(n, a, lambda, v)
    ensures forall i | 0 <= i < n :: Apply(n, b, Back(turns, v))(i) == lambda * Back(turns, v)(i)
  {
    hide Apply, AreTurns, Dot;
    var x := Back(turns, v);
    assert SimilarAt(n, a, b, turns, x);
    ChainUndone(n, turns, v);
    ApplyCongruence(n, a, Along(turns, x), v);
    var scaled := Combined(lambda, v, 0.0, v);
    forall i | 0 <= i < n ensures Apply(n, a, Along(turns, x))(i) == scaled(i) {
      assert Apply(n, a, v)(i) == lambda * v(i);
    }
    ChainCongruence(n, turns, Apply(n, a, Along(turns, x)), scaled);
    ChainLinear(n, turns, lambda, v, 0.0, v);
  }

  lemma NonzeroEntry(n: nat, x: Vec) returns (i: nat)
    requires Dot(n, x, x) == 1.0
    ensures i < n && x(i) != 0.0
  {
    if forall j | 0 <= j < n :: x(j) == 0.0 {
      SumConstantZero(n, Times(x, x));
    }
    i :| i < n && x(i) != 0.0;
  }

  // --------------------------------------------------- the form on unit vectors

  /** Entries away from the diagonal are at most eps. */
  ghost predicate NearlyDiagonal(n: nat, b: Mat, eps: real) {
    forall i, j | 0 <= i < n && 0 <= j < n && i != j :: Abs(b(i, j)) <= eps
  }

  ghost predicate DiagonalBelow(n: nat, b: Mat, high: real) {
    forall i | 0 <= i < n :: b(i, i) <= high
  }

  function ScaledBy(v: real, x: Vec): Vec {
    j => v * x(j)
  }

  /** A bound on the terms of row i: half of eps for each square, and the diagonal. */
  function RowBound(half: real, high: real, x: Vec, i: int): Vec {
    j => half * Times(x, x)(j) + RowConstant(half, high, x, i)(j)
  }

  function RowConstant(half: real, high: real, x: Vec, i: int): Vec {
    j => half * Times(x, x)(i) + (if j == i then high * Times(x, x)(i) else 0.0)
  }

  lemma CrossTerm(eps: real, u: real, v: real, w: real)
    requires Abs(w) <= eps
    ensures u * (w * v) <= eps / 2.0 * (v * v) + eps / 2.0 * (u * u)
  {
    SquareNonnegative(u - v);
    SquareNonnegative(u + v);
    CrossIdentity(eps, w, u, v);
    NonnegativeProduct(eps - w, Square(u + v));
    NonnegativeProduct(eps + w, Square(u - v));
  }

  lemma CrossIdentity(eps: real, w: real, u: real, v: real)
    ensures (eps - w) * Square(u + v) + (eps + w) * Square(u - v)
         == 4.0 * (eps / 2.0 * (v * v) + eps / 2.0 * (u * u) - u * (w * v))
  {
  }

  lemma DiagonalTerm(half: real, high: real, u: real, d: real)
    requires half >= 0.0 && d <= high
    ensures u * (d * u) <= half * (u * u) + (half * (u * u) + high * (u * u))
  {
    SquareNonnegative(u);
    NonnegativeProduct(half, Square(u));
    NonnegativeProduct(high - d, Square(u));
    assert (high - d) * Square(u) == high * (u * u) - u * (d * u);
  }

  lemma RowBoundAt(half: real, high: real, x: Vec, i: int, j: int)
    ensures RowBound(half, high, x, i)(j)
         == half * (x(j) * x(j)) + (half * (x(i) * x(i)) + (if j == i then high * (x(i) * x(i)) else 0.0))
  {
    var f := Times(x, x);
    assert f(j) == x(j) * x(j) && f(i) == x(i) * x(i);
    assert RowConstant(half, high, x, i)(j) == half * f(i) + (if j == i then high * f(i) else 0.0);
    assert RowBound(half, high, x, i)(j) == half * f(j) + RowConstant(half, high, x, i)(j);
  }

  lemma RowTermAt(n: nat, b: Mat, eps: real, high: real, x: Vec, i: nat, j: nat)
    requires eps >= 0.0 && NearlyDiagonal(n, b, eps) && DiagonalBelow(n, b, high) && i < n && j < n
    ensures ScaledBy(x(i), Times(Row(b, i), x))(j) <= RowBound(eps / 2.0, high, x, i)(j)
  {
    var half, u, v, w := eps / 2.0, x(i), x(j), b(i, j);
    RowBoundAt(half, high, x, i, j);
    hide RowBound;
    if j == i {
      DiagonalTerm(half, high, u, w);
    } else {
      CrossTerm(eps, u, v, w);
    }
  }

  lemma RowConstantSum(n: nat, half: real, high: real, x: Vec, i: nat)
    requires i < n
    ensures Sum(0, n, RowConstant(half, high, x, i)) == (n as real * half + high) * Times(x, x)(i)
  {
    hide Sum, Times;
    var u, k := Times(x, x)(i), RowConstant(half, high, x, i);
    var level := half * u;
    SumDifferOne(0, n, i, k, Constant(level));
    SumConstant(0, n, level, Constant(level));
    GatherRow(n as real, half, high, u);
  }

  lemma RowTerm(n: nat, b: Mat, eps: real, high: real, x: Vec, i: nat)
    requires eps >= 0.0 && NearlyDiagonal(n, b, eps) && DiagonalBelow(n, b, high) && i < n
    ensures x(i) * Apply(n, b, x)(i) <= eps / 2.0 * Dot(n, x, x) + (n as real * (eps / 2.0) + high) * Times(x, x)(i)
  {
    hide Sum, NearlyDiagonal, DiagonalBelow, RowConstant, Abs;
    var half := eps / 2.0;
    var f, g, k := ScaledBy(x(i), Times(Row(b, i), x)), RowBound(half, high, x, i), RowConstant(half, high, x, i);
    forall j | 0 <= j < n ensures f(j) <= g(j) {
      RowTermAt(n, b, eps, high, x, i, j);
    }
    SumScale(0, n, x(i), Times(Row(b, i), x), f);
    SumMonotone(0, n, f, g);
    RowBoundSum(n, half, high, x, i);
    RowConstantSum(n, half, high, x, i);
  }

  lemma RowBoundSum(n: nat, half: real, high: real, x: Vec, i: nat)
    ensures Sum(0, n, RowBound(half, high, x, i)) == half * Dot(n, x, x) + Sum(0, n, RowConstant(half, high, x, i))
  {
    hide Sum, RowConstant;
    SumLinear(0, n, half, Times(x, x), 1.0, RowConstant(half, high, x, i), RowBound(half, high, x, i));
  }

  lemma GatherRow(n: real, half: real, high: real, u: real)
    ensures n * (half * u) + high * u == (n * half + high) * u
  {
  }

  /** The form of a nearly diagonal matrix is at most its largest diagonal entry, on
      unit vectors, up to n eps. */
  lemma FormBelow(n: nat, b: Mat, eps: real, high: real, x: Vec)
    requires eps >= 0.0 && NearlyDiagonal(n, b, eps) && DiagonalBelow(n, b, high)
    ensures Quad(n, b, x) <= (high + n as real * eps) * Dot(n, x, x)
  {
    hide Sum, Apply, NearlyDiagonal, DiagonalBelow, Combination;
    var half, size := eps / 2.0, Dot(n, x, x);
    var f, g := Times(x, Apply(n, b, x)), Combined(half * size, Constant(1.0), n as real * half + high, Times(x, x));
    forall i | 0 <= i < n ensures f(i) <= g(i) {
      RowTerm(n, b, eps, high, x, i);
      CombinationOne(half * size, n as real * half + high, Times(x, x)(i));
    }
    FormIsDot(n, b, x);
    SumMonotone(0, n, f, g);
    CombinedSum(n, half * size, Constant(1.0), n as real * half + high, Times(x, x));
    SumConstant(0, n, 1.0, Constant(1.0));
    GatherForm(n as real, eps, high, size);
  }

  lemma CombinedSum(n: nat, p: real, u: Vec, q: real, v: Vec)
    ensures Sum(0, n, Combined(p, u, q, v)) == p * Sum(0, n, u) + q * Sum(0, n, v)
  {
    hide Sum;
    SumLinear(0, n, p, u, q, v, Combined(p, u, q, v));
  }

  lemma CombinationOne(p: real, q: real, u: real)
    ensures Combination(p, 1.0, q, u) == p + q * u
  {
  }

  lemma GatherForm(n: real, eps: real, high: real, size: real)
    ensures eps / 2.0 * size * n + (n * (eps / 2.0) + high) * size == (high + n * eps) * size
  {
  }

  function Opposite(b: Mat): Mat {
    (i, j) => -b(i, j)
  }

  lemma OppositeForm(n: nat, b: Mat, x: Vec)
    ensures Quad(n, Opposite(b), x) == -Quad(n, b, x)
  {
    hide Sum;
    forall i | 0 <= i < n ensures Apply(n, Opposite(b), x)(i) == -1.0 * Apply(n, b, x)(i) {
      SumScale(0, n, -1.0, Times(Row(b, i), x), Times(Row(Opposite(b), i), x));
    }
    SumScale(0, n, -1.0, Times(x, Apply(n, b, x)), Times(x, Apply(n, Opposite(b), x)));
  }

  /** On every unit vector the original form lies between the extremes of the rotated
      diagonal, up to n eps. */
  lemma FormWithinExtremes(n: nat, a: Mat, b: Mat, turns: seq<Turn>, eps: real, low: real, high: real, y: Vec)
    requires AreTurns(n, turns) && Similar(n, a, b, turns) && eps >= 0.0 && NearlyDiagonal(n, b, eps)
    requires forall i | 0 <= i < n :: low <= b(i, i) <= high
    requires Dot(n, y, y) == 1.0
    ensures low - n as real * eps <= Quad(n, a, y) <= high + n as real * eps
  {
    hide Dot, Quad, AreTurns, Similar;
    var x := Back(turns, y);
    ChainUndone(n, turns, y);
    FormCongruence(n, a, Along(turns, x), y);
    SimilarForm(n, a, b, turns, x);
    ChainKeepsProducts(n, turns, x, x);
    DotCongruence(n, Along(turns, x), Along(turns, x), y, y);
    FormBelow(n, b, eps, high, x);
    FormBelow(n, Opposite(b), eps, -low, x);
    OppositeForm(n, b, x);
  }

  lemma FormCongruence(n: nat, a: Mat, x: Vec, y: Vec)
    requires Agree(n, x, y)
    ensures Quad(n, a, x) == Quad(n, a, y)
  {
    hide Sum;
    ApplyCongruence(n, a, x, y);
    DotCongruence(n, x, Apply(n, a, x), y, Apply(n, a, y));
  }
}
