/** The Schur-complement test that guards a covariance matrix
    (src/envresearch/econometrics/_valuation_evidence.py, lines 56-77). */
module PsdTest {
  import opened Reals
  import opened Sums
  import opened Quadratic

  // ---------------------------------------------------------------- the test

  /** One elimination step: the trailing block loses column k, row k and pivot. */
  function Eliminate(a: Mat, k: int): Mat
    requires a(k, k) != 0.0
  {
    var p := a(k, k);
    (i, j) =>
      if k < j <= i then a(i, j) - a(i, k) * a(j, k) / p
      else if k < i < j then a(j, i) - a(j, k) * a(i, k) / p
      else a(i, j)
  }

  ghost predicate ColumnBelowWithin(n: nat, a: Mat, k: int, tau: real) {
    forall r | k < r < n :: Abs(a(r, k)) <= tau
  }

  /** What the source's loop answers from pivot k on. */
  ghost predicate Accepts(n: nat, a: Mat, k: nat, tau: real)
    requires tau >= 0.0
    decreases n - k
  {
    if k >= n then true
    else if a(k, k) < -tau then false
    else if Abs(a(k, k)) <= tau then ColumnBelowWithin(n, a, k, tau) && Accepts(n, a, k + 1, tau)
    else Accepts(n, Eliminate(a, k), k + 1, tau)
  }

  // ------------------------------------------- the form on the trailing block

  /** The part of column k from row i on, weighted by x. */
  function Below(n: nat, a: Mat, k: int, i: int, x: Vec): real {
    DotFrom(i, n, Column(a, k), x)
  }

  /** The quadratic form of the block of rows and columns k..n, read off the
      lower triangle, one pivot at a time. */
  function TailForm(n: nat, a: Mat, k: int, x: Vec): real
    decreases n - k
  {
    if k >= n then 0.0
    else a(k, k) * Square(x(k)) + 2.0 * (x(k) * Below(n, a, k, k + 1, x)) + TailForm(n, a, k + 1, x)
  }

  function AbsTail(n: nat, k: int, x: Vec): real {
    Sum(k, n, Absolutes(x))
  }

  lemma PeelPivot(p: real, v: real, b: real)
    ensures v * (p * v + b) + v * b == p * Square(v) + 2.0 * (v * b)
  {
  }

  /** Taking column k out of a block product, for any column and remainder. */
  lemma PeelColumn(lo: int, n: nat, x: Vec, v: real, column: Vec, full: Vec, rest: Vec, below: real)
    requires forall i | lo <= i < n :: full(i) == v * column(i) + 1.0 * rest(i)
    requires below == DotFrom(lo, n, column, x)
    ensures DotFrom(lo, n, x, full) == v * below + DotFrom(lo, n, x, rest)
  {
    hide DotFrom;
    DotLinear(lo, n, v, column, 1.0, rest, full, x);
    DotCommutes(lo, n, x, full);
    DotCommutes(lo, n, x, rest);
  }

  lemma PeelRow(n: nat, a: Mat, k: int, x: Vec)
    requires k < n
    ensures ApplyFrom(k, n, Lower(a), x)(k) == a(k, k) * x(k) + Below(n, a, k, k + 1, x)
    ensures QuadFrom(k, n, Lower(a), x)
         == x(k) * ApplyFrom(k, n, Lower(a), x)(k) + DotFrom(k + 1, n, x, ApplyFrom(k, n, Lower(a), x))
  {
    var s := Lower(a);
    LowerRow(n, a, k, x);
    hide DotFrom, Lower;
    PeelFirst(k, n, Row(s, k), x);
    PeelFirst(k, n, x, ApplyFrom(k, n, s, x));
  }

  lemma LowerRow(n: nat, a: Mat, k: int, x: Vec)
    ensures Row(Lower(a), k)(k) == a(k, k)
    ensures DotFrom(k + 1, n, Row(Lower(a), k), x) == Below(n, a, k, k + 1, x)
  {
    hide Sum;
    SumCongruence(k + 1, n, Times(Row(Lower(a), k), x), Times(Column(a, k), x));
  }

  lemma PeelFirst(lo: int, n: nat, u: Vec, v: Vec)
    requires lo < n
    ensures DotFrom(lo, n, u, v) == u(lo) * v(lo) + DotFrom(lo + 1, n, u, v)
  {
  }

  lemma PeelRest(n: nat, a: Mat, k: int, x: Vec)
    requires k < n
    ensures DotFrom(k + 1, n, x, ApplyFrom(k, n, Lower(a), x))
         == x(k) * Below(n, a, k, k + 1, x) + QuadFrom(k + 1, n, Lower(a), x)
  {
    var s, below := Lower(a), Below(n, a, k, k + 1, x);
    hide DotFrom;
    forall i | k < i < n
      ensures ApplyFrom(k, n, s, x)(i) == x(k) * Column(a, k)(i) + 1.0 * ApplyFrom(k + 1, n, s, x)(i)
    {
      PeelFirst(k, n, Row(s, i), x);
      assert Row(s, i)(k) == Column(a, k)(i);
    }
    assert below == DotFrom(k + 1, n, Column(a, k), x);
    hide Below, ApplyFrom, Lower;
    PeelColumn(k + 1, n, x, x(k), Column(a, k), ApplyFrom(k, n, s, x), ApplyFrom(k + 1, n, s, x), below);
  }

  lemma PeelForm(n: nat, a: Mat, k: int, x: Vec)
    requires k < n
    ensures QuadFrom(k, n, Lower(a), x)
         == a(k, k) * Square(x(k)) + 2.0 * (x(k) * Below(n, a, k, k + 1, x)) + QuadFrom(k + 1, n, Lower(a), x)
  {
    hide Sum, Times, DotFrom, ApplyFrom, QuadFrom, Below, Square;
    PeelRow(n, a, k, x);
    PeelRest(n, a, k, x);
    PeelPivot(a(k, k), x(k), Below(n, a, k, k + 1, x));
  }

  lemma {:induction false} TailFormIsQuad(n: nat, a: Mat, k: int, x: Vec)
    ensures TailForm(n, a, k, x) == QuadFrom(k, n, Lower(a), x)
    decreases n - k
  {
    if k < n {
      TailFormIsQuad(n, a, k + 1, x);
      PeelForm(n, a, k, x);
    }
  }

  /** The recursion equations of the trailing form and the trailing norm. */
  lemma UnfoldTail(n: nat, a: Mat, k: int, x: Vec)
    requires k < n
    ensures TailForm(n, a, k, x)
         == a(k, k) * Square(x(k)) + 2.0 * (x(k) * Below(n, a, k, k + 1, x)) + TailForm(n, a, k + 1, x)
    ensures AbsTail(n, k, x) == Abs(x(k)) + AbsTail(n, k + 1, x)
    ensures Below(n, a, k, k + 1, x) == DotFrom(k + 1, n, Column(a, k), x)
  {
  }

  lemma UnfoldBelow(n: nat, a: Mat, c: int, i: int, x: Vec)
    ensures i < n ==> Below(n, a, c, i, x) == a(i, c) * x(i) + Below(n, a, c, i + 1, x)
    ensures i >= n ==> Below(n, a, c, i, x) == 0.0 && TailForm(n, a, i, x) == 0.0
  {
  }

  // ------------------------------------------------- what one pivot contributes

  lemma CompleteSquare(p: real, m: real, d: real, v: real, b: real, t: real, w: real)
    requires p != 0.0
    ensures (d - m * m / p) * Square(v) + 2.0 * (v * (b - (m / p) * w)) + (t - Square(w) / p)
         == d * Square(v) + 2.0 * (v * b) + t - Square(m * v + w) / p
  {
    var q := 1.0 / p;
    assert m * m / p == m * m * q && m / p == m * q;
    assert Square(w) / p == Square(w) * q && Square(m * v + w) / p == Square(m * v + w) * q;
    assert Square(m * v + w) == m * m * Square(v) + 2.0 * (m * v * w) + Square(w);
    assert Square(m * v + w) * q == m * m * Square(v) * q + 2.0 * (m * v * w) * q + Square(w) * q;
    assert v * (b - (m * q) * w) == v * b - (m * v * w) * q;
  }

  /** Elimination subtracts a square: the trailing form loses B^2 / pivot. */
  lemma {:induction false} EliminateTail(n: nat, a: Mat, k: int, i: int, x: Vec)
    requires k < i && a(k, k) != 0.0
    ensures TailForm(n, Eliminate(a, k), i, x) == TailForm(n, a, i, x) - Square(Below(n, a, k, i, x)) / a(k, k)
    decreases n - i
  {
    hide Sum, Times, TailForm, DotFrom, Below;
    UnfoldBelow(n, a, k, i, x);
    UnfoldBelow(n, Eliminate(a, k), i, i, x);
    if i < n {
      UnfoldTail(n, a, i, x);
      UnfoldTail(n, Eliminate(a, k), i, x);
      EliminateTail(n, a, k, i + 1, x);
      EliminatedColumn(n, a, k, i, x);
      CompleteSquare(a(k, k), a(i, k), a(i, i), x(i), Below(n, a, i, i + 1, x), TailForm(n, a, i + 1, x),
                     Below(n, a, k, i + 1, x));
    }
  }

  lemma EliminatedColumn(n: nat, a: Mat, k: int, i: int, x: Vec)
    requires k < i && a(k, k) != 0.0
    ensures Below(n, Eliminate(a, k), i, i + 1, x)
         == Below(n, a, i, i + 1, x) - (a(i, k) / a(k, k)) * Below(n, a, k, i + 1, x)
  {
    hide Sum;
    var p, m, e := a(k, k), a(i, k), Eliminate(a, k);
    forall r | i < r < n ensures Column(e, i)(r) == 1.0 * Column(a, i)(r) + (-(m / p)) * Column(a, k)(r) {
      ProductOverPivot(a(r, k), m, p);
    }
    DotLinear(i + 1, n, 1.0, Column(a, i), -(m / p), Column(a, k), Column(e, i), x);
  }

  lemma ProductOverPivot(u: real, m: real, p: real)
    requires p != 0.0
    ensures u * m / p == (m / p) * u
  {
  }

  lemma PivotSquare(p: real, v: real, b: real)
    requires p != 0.0
    ensures p * Square(v) + 2.0 * (v * b) == p * Square(v + b / p) - Square(b) / p
  {
    var q := b / p;
    assert b == p * q;
    assert p * Square(v + q) == p * Square(v) + 2.0 * (v * (p * q)) + q * (p * q);
    assert Square(b) / p == b * q;
  }

  /** The trailing form after a usable pivot, as a square plus the eliminated form. */
  lemma PivotStep(n: nat, a: Mat, k: int, x: Vec)
    requires k < n && a(k, k) != 0.0
    ensures TailForm(n, a, k, x)
         == a(k, k) * Square(x(k) + Below(n, a, k, k + 1, x) / a(k, k)) + TailForm(n, Eliminate(a, k), k + 1, x)
  {
    hide Sum, Times, TailForm, DotFrom, Below, Square;
    UnfoldTail(n, a, k, x);
    EliminateTail(n, a, k, k + 1, x);
    PivotSquare(a(k, k), x(k), Below(n, a, k, k + 1, x));
  }

  // ------------------------------------------------------- acceptance is sound

  lemma {:induction false} AbsTailNonnegative(n: nat, k: int, x: Vec)
    ensures AbsTail(n, k, x) >= 0.0
    decreases n - k
  {
    if k < n {
      AbsTailNonnegative(n, k + 1, x);
      assert Absolutes(x)(k) == Abs(x(k));
    } else {
      assert AbsTail(n, k, x) == 0.0;
    }
  }

  lemma AbsProduct(u: real, v: real, tau: real)
    requires Abs(u) <= tau
    ensures -(tau * Abs(v)) <= u * v <= tau * Abs(v)
  {
  }

  lemma ColumnTerm(a: Mat, k: int, r: int, tau: real, x: Vec)
    requires Abs(a(r, k)) <= tau
    ensures -(tau * Absolutes(x)(r)) <= Times(Column(a, k), x)(r) <= tau * Absolutes(x)(r)
  {
    AbsProduct(a(r, k), x(r), tau);
  }

  /** A column whose entries are all within tau of zero contributes little. */
  lemma SmallColumn(n: nat, a: Mat, k: int, tau: real, x: Vec)
    requires ColumnBelowWithin(n, a, k, tau)
    ensures Abs(DotFrom(k + 1, n, Column(a, k), x)) <= tau * AbsTail(n, k + 1, x)
  {
    hide Sum, Times, Absolutes, Column;
    var f, g := Times(Column(a, k), x), Absolutes(x);
    forall r | k < r < n ensures -(tau * g(r)) <= f(r) <= tau * g(r) {
      ColumnTerm(a, k, r, tau, x);
    }
    SumAbsBound(k + 1, n, tau, f, g);
  }

  lemma SmallPivotBound(p: real, v: real, b: real, t: real, s: real, tau: real)
    requires Abs(p) <= tau && s >= 0.0
    requires Abs(b) <= tau * s
    requires t >= -(tau * Square(s))
    ensures p * Square(v) + 2.0 * (v * b) + t >= -(tau * Square(Abs(v) + s))
  {
    hide Square, Abs;
    SquareOfAbs(v);
    AbsProduct(p, Square(v), tau);
    AbsOfNonnegative(Square(v));
    AbsProduct(b, v, tau * s);
    ExpandScaledSquare(tau, Abs(v), s);
    AddLowerBounds(p * Square(v), b * v, t, tau * Square(Abs(v)), (tau * s) * Abs(v), tau * Square(s));
  }

  lemma AbsOfNonnegative(r: real)
    requires r >= 0.0
    ensures Abs(r) == r
  {
  }

  lemma AddLowerBounds(x: real, y: real, t: real, u: real, w: real, z: real)
    requires x >= -u && y >= -w && t >= -z
    ensures x + 2.0 * y + t >= -(u + 2.0 * w + z)
  {
  }

  lemma SquareOfAbs(v: real)
    ensures Square(v) == Square(Abs(v)) >= 0.0
  {
  }

  lemma ExpandScaledSquare(tau: real, u: real, s: real)
    ensures tau * Square(u + s) == tau * Square(u) + 2.0 * ((tau * s) * u) + tau * Square(s)
  {
    assert Square(u + s) == Square(u) + 2.0 * (s * u) + Square(s);
    assert tau * Square(u + s) == tau * Square(u) + tau * (2.0 * (s * u)) + tau * Square(s);
    assert tau * (2.0 * (s * u)) == 2.0 * ((tau * s) * u);
  }

  lemma ScaledSquareNonnegative(p: real, r: real)
    requires p >= 0.0
    ensures p * Square(r) >= 0.0
  {
  }

  lemma WiderTail(tau: real, s: real, w: real)
    requires tau >= 0.0 && s >= 0.0 && w >= 0.0
    ensures tau * Square(s) <= tau * Square(w + s)
  {
    assert Square(w + s) - Square(s) == w * (w + 2.0 * s) >= 0.0;
  }

  ghost predicate TailBounded(n: nat, a: Mat, k: int, tau: real, x: Vec) {
    TailForm(n, a, k, x) >= -(tau * Square(AbsTail(n, k, x)))
  }

  lemma SkippedPivotBound(n: nat, a: Mat, k: int, tau: real, x: Vec)
    requires k < n && Abs(a(k, k)) <= tau && ColumnBelowWithin(n, a, k, tau)
    requires TailBounded(n, a, k + 1, tau, x)
    ensures TailBounded(n, a, k, tau, x)
  {
    hide Sum, Times, TailForm, DotFrom, Below, AbsTail, Square;
    AbsTailNonnegative(n, k + 1, x);
    SmallColumn(n, a, k, tau, x);
    UnfoldTail(n, a, k, x);
    SmallPivotBound(a(k, k), x(k), Below(n, a, k, k + 1, x), TailForm(n, a, k + 1, x), AbsTail(n, k + 1, x), tau);
  }

  lemma UsedPivotBound(n: nat, a: Mat, k: int, tau: real, x: Vec)
    requires k < n && a(k, k) > tau >= 0.0
    requires TailBounded(n, Eliminate(a, k), k + 1, tau, x)
    ensures TailBounded(n, a, k, tau, x)
  {
    hide Sum, Times, TailForm, DotFrom, Below, AbsTail, Square;
    AbsTailNonnegative(n, k + 1, x);
    PivotStep(n, a, k, x);
    UnfoldTail(n, a, k, x);
    ScaledSquareNonnegative(a(k, k), x(k) + Below(n, a, k, k + 1, x) / a(k, k));
    WiderTail(tau, AbsTail(n, k + 1, x), Abs(x(k)));
  }

  lemma {:induction false} AcceptsBoundsTail(n: nat, a: Mat, k: nat, tau: real, x: Vec)
    requires tau >= 0.0 && Accepts(n, a, k, tau)
    ensures TailBounded(n, a, k, tau, x)
    decreases n - k
  {
    if k >= n {
      assert AbsTail(n, k, x) == 0.0;
    } else if Abs(a(k, k)) <= tau {
      AcceptsBoundsTail(n, a, k + 1, tau, x);
      SkippedPivotBound(n, a, k, tau, x);
    } else {
      AcceptsBoundsTail(n, Eliminate(a, k), k + 1, tau, x);
      UsedPivotBound(n, a, k, tau, x);
    }
  }

  // -------------------------------------------- rejection at tolerance zero

  function With(x: Vec, k: int, v: real): Vec {
    i => if i == k then v else x(i)
  }

  lemma BelowIgnoresEarlier(n: nat, a: Mat, c: int, k: int, x: Vec, y: Vec)
    requires forall i | k <= i < n :: x(i) == y(i)
    ensures Below(n, a, c, k, x) == Below(n, a, c, k, y)
  {
    SumCongruence(k, n, Times(Column(a, c), x), Times(Column(a, c), y));
  }

  lemma {:induction false} TailIgnoresEarlier(n: nat, a: Mat, k: int, x: Vec, y: Vec)
    requires forall i | k <= i < n :: x(i) == y(i)
    ensures TailForm(n, a, k, x) == TailForm(n, a, k, y)
    decreases n - k
  {
    hide TailForm, Below, Sum;
    UnfoldBelow(n, a, k, k, x);
    UnfoldBelow(n, a, k, k, y);
    if k < n {
      UnfoldTail(n, a, k, x);
      UnfoldTail(n, a, k, y);
      TailIgnoresEarlier(n, a, k + 1, x, y);
      BelowIgnoresEarlier(n, a, k, k + 1, x, y);
    }
  }

  lemma TailUnit(n: nat, a: Mat, k: int, p: int)
    requires k <= p < n
    ensures TailForm(n, a, k, Unit(p)) == a(p, p)
    ensures forall c :: Below(n, a, c, k, Unit(p)) == a(p, c)
    decreases n - k
  {
    forall c ensures Below(n, a, c, k, Unit(p)) == a(p, c) {
      SumSingle(k, n, p, Times(Column(a, c), Unit(p)));
    }
    if k < p {
      TailUnit(n, a, k + 1, p);
    } else {
      TailZero(n, a, k + 1, Unit(p));
      SumConstantTail(k + 1, n, Times(Column(a, k), Unit(p)));
    }
  }

  lemma SumConstantTail(lo: int, n: nat, f: Vec)
    requires forall i | lo <= i < n :: f(i) == 0.0
    ensures Sum(lo, n, f) == 0.0
  {
    SumScale(lo, n, 0.0, f, f);
  }

  lemma {:induction false} TailZero(n: nat, a: Mat, k: int, x: Vec)
    requires forall i | k <= i < n :: x(i) == 0.0
    ensures TailForm(n, a, k, x) == 0.0
    decreases n - k
  {
    if k < n {
      TailZero(n, a, k + 1, x);
    }
  }

  /** A rejected matrix has a direction of negative curvature. */
  lemma {:induction false} RejectsHasNegative(n: nat, a: Mat, k: nat) returns (x: Vec)
    requires !Accepts(n, a, k, 0.0)
    ensures TailForm(n, a, k, x) < 0.0
    decreases n - k
  {
    var p := a(k, k);
    if p < 0.0 {
      x := Unit(k);
      TailUnit(n, a, k, k);
    } else if p == 0.0 {
      if ColumnBelowWithin(n, a, k, 0.0) {
        var y := RejectsHasNegative(n, a, k + 1);
        x := With(y, k, 0.0);
        TailIgnoresEarlier(n, a, k + 1, x, y);
      } else {
        var r :| k < r < n && Abs(a(r, k)) > 0.0;
        x := ZeroPivotDirection(n, a, k, r);
      }
    } else {
      var y := RejectsHasNegative(n, Eliminate(a, k), k + 1);
      x := With(y, k, -(Below(n, a, k, k + 1, y) / p));
      TailIgnoresEarlier(n, a, k + 1, x, y);
      TailIgnoresEarlier(n, Eliminate(a, k), k + 1, x, y);
      BelowIgnoresEarlier(n, a, k, k + 1, x, y);
      PivotStep(n, a, k, x);
    }
  }

  /** A zero pivot with a nonzero entry m below it: (t, 1) has form 2 t m + d. */
  lemma ZeroPivotDirection(n: nat, a: Mat, k: nat, r: nat) returns (x: Vec)
    requires k < r < n && a(k, k) == 0.0 && a(r, k) != 0.0
    ensures TailForm(n, a, k, x) < 0.0
  {
    var t := -((a(r, r) + 1.0) / (2.0 * a(r, k)));
    x := With(Unit(r), k, t);
    TailUnit(n, a, k + 1, r);
    TailIgnoresEarlier(n, a, k + 1, x, Unit(r));
    BelowIgnoresEarlier(n, a, k, k + 1, x, Unit(r));
    assert t * (2.0 * a(r, k)) == -(a(r, r) + 1.0);
    assert 2.0 * (t * a(r, k)) == t * (2.0 * a(r, k));
  }

  // ------------------------------------------ rejection at any tolerance

  function SquareTail(n: nat, k: int, x: Vec): real {
    DotFrom(k, n, x, x)
  }

  lemma UnfoldSquares(n: nat, k: int, x: Vec)
    requires k < n
    ensures SquareTail(n, k, x) == Square(x(k)) + SquareTail(n, k + 1, x)
  {
  }

  lemma {:induction false} SquaresIgnoreEarlier(n: nat, k: int, x: Vec, y: Vec)
    requires forall i | k <= i < n :: x(i) == y(i)
    ensures SquareTail(n, k, x) == SquareTail(n, k, y)
  {
    SumCongruence(k, n, Times(x, x), Times(y, y));
  }

  lemma SquaresUnit(n: nat, k: int, p: int)
    requires k <= p < n
    ensures SquareTail(n, k, Unit(p)) == 1.0
  {
    SumSingle(k, n, p, Times(Unit(p), Unit(p)));
  }

  ghost predicate NonzeroFrom(n: nat, k: int, x: Vec) {
    exists i :: k <= i < n && x(i) != 0.0
  }

  /** A direction whose form is at most tau times its squared length. */
  ghost predicate SmallDirection(n: nat, a: Mat, k: int, tau: real, x: Vec) {
    NonzeroFrom(n, k, x) && TailForm(n, a, k, x) <= tau * SquareTail(n, k, x)
  }

  lemma SkipPivot(n: nat, a: Mat, k: int, tau: real, y: Vec)
    requires k < n && SmallDirection(n, a, k + 1, tau, y)
    ensures SmallDirection(n, a, k, tau, With(y, k, 0.0))
  {
    hide TailForm, SquareTail, Below;
    var x := With(y, k, 0.0);
    TailIgnoresEarlier(n, a, k + 1, x, y);
    SquaresIgnoreEarlier(n, k + 1, x, y);
    UnfoldTail(n, a, k, x);
    UnfoldSquares(n, k, x);
    var i :| k + 1 <= i < n && y(i) != 0.0;
    assert x(i) != 0.0;
  }

  lemma UsePivot(n: nat, a: Mat, k: int, tau: real, y: Vec)
    requires k < n && a(k, k) > tau >= 0.0 && SmallDirection(n, Eliminate(a, k), k + 1, tau, y)
    ensures SmallDirection(n, a, k, tau, With(y, k, -(Below(n, a, k, k + 1, y) / a(k, k))))
  {
    hide TailForm, SquareTail, Below, Eliminate;
    var v := -(Below(n, a, k, k + 1, y) / a(k, k));
    var x := With(y, k, v);
    TailIgnoresEarlier(n, Eliminate(a, k), k + 1, x, y);
    BelowIgnoresEarlier(n, a, k, k + 1, x, y);
    SquaresIgnoreEarlier(n, k + 1, x, y);
    PivotStep(n, a, k, x);
    VanishingSquare(a(k, k), x(k) + Below(n, a, k, k + 1, x) / a(k, k));
    UnfoldSquares(n, k, x);
    ScaledSquareNonnegative(tau, v);
    Distribute(tau, Square(v), SquareTail(n, k + 1, x));
    var i :| k + 1 <= i < n && y(i) != 0.0;
    assert x(i) != 0.0;
  }

  lemma VanishingSquare(p: real, u: real)
    requires u == 0.0
    ensures p * Square(u) == 0.0
  {
  }

  /** A pivot within the tolerance above an entry m beyond it. */
  lemma SmallPivotDirection(n: nat, a: Mat, k: nat, r: nat, tau: real) returns (x: Vec)
    requires k < r < n && Abs(a(k, k)) <= tau < Abs(a(r, k))
    ensures SmallDirection(n, a, k, tau, x)
  {
    hide TailForm, SquareTail, With;
    var p, m, d := a(k, k), a(r, k), a(r, r);
    var t := -((d - tau) / (2.0 * m));
    x := With(Unit(r), k, t);
    PairTail(n, a, k, r, t);
    BalancedDirection(p, m, d, t, tau);
  }

  lemma PairTail(n: nat, a: Mat, k: nat, r: nat, t: real)
    requires k < r < n
    ensures var x := With(Unit(r), k, t);
            && TailForm(n, a, k, x) == a(k, k) * Square(t) + 2.0 * (t * a(r, k)) + a(r, r)
            && SquareTail(n, k, x) == Square(t) + 1.0
            && NonzeroFrom(n, k, x)
  {
    hide TailForm, SquareTail, Below, Square;
    var x := With(Unit(r), k, t);
    TailUnit(n, a, k + 1, r);
    TailIgnoresEarlier(n, a, k + 1, x, Unit(r));
    BelowIgnoresEarlier(n, a, k, k + 1, x, Unit(r));
    SquaresUnit(n, k + 1, r);
    SquaresIgnoreEarlier(n, k + 1, x, Unit(r));
    UnfoldTail(n, a, k, x);
    UnfoldSquares(n, k, x);
    SameRow(a(k, k), x(k), t, Below(n, a, k, k + 1, x), a(r, k), TailForm(n, a, k + 1, x), a(r, r));
    assert x(r) != 0.0;
  }

  lemma SameRow(p: real, u: real, t: real, b: real, m: real, w: real, d: real)
    requires u == t && b == m && w == d
    ensures p * Square(u) + 2.0 * (u * b) + w == p * Square(t) + 2.0 * (t * m) + d
  {
  }

  lemma BalancedDirection(p: real, m: real, d: real, t: real, tau: real)
    requires p <= tau && m != 0.0 && t == -((d - tau) / (2.0 * m))
    ensures p * Square(t) + 2.0 * (t * m) + d <= tau * (Square(t) + 1.0)
  {
    QuotientTimes(d - tau, 2.0 * m);
    DoubleProduct(t, m);
    ScaledSquareNonnegative(tau - p, t);
    SquareShare(tau, p, Square(t));
  }

  lemma QuotientTimes(u: real, v: real)
    requires v != 0.0
    ensures -(u / v) * v == -u
  {
  }

  lemma DoubleProduct(t: real, m: real)
    ensures 2.0 * (t * m) == t * (2.0 * m)
  {
  }

  lemma SquareShare(tau: real, p: real, q: real)
    ensures (tau - p) * q == tau * q - p * q
    ensures tau * (q + 1.0) == tau * q + tau
  {
  }

  /** A rejected matrix has a nonzero direction of form at most tau times its length. */
  lemma {:induction false} RejectsHasSmallTail(n: nat, a: Mat, k: nat, tau: real) returns (x: Vec)
    requires tau >= 0.0 && !Accepts(n, a, k, tau)
    ensures SmallDirection(n, a, k, tau, x)
    decreases n - k
  {
    hide SmallDirection;
    if a(k, k) < -tau {
      x := Unit(k);
      NegativePivotDirection(n, a, k, tau);
    } else if Abs(a(k, k)) <= tau {
      if ColumnBelowWithin(n, a, k, tau) {
        var y := RejectsHasSmallTail(n, a, k + 1, tau);
        x := With(y, k, 0.0);
        SkipPivot(n, a, k, tau, y);
      } else {
        var r :| k < r < n && Abs(a(r, k)) > tau;
        x := SmallPivotDirection(n, a, k, r, tau);
      }
    } else {
      var y := RejectsHasSmallTail(n, Eliminate(a, k), k + 1, tau);
      x := With(y, k, -(Below(n, a, k, k + 1, y) / a(k, k)));
      UsePivot(n, a, k, tau, y);
    }
  }

  lemma NegativePivotDirection(n: nat, a: Mat, k: nat, tau: real)
    requires k < n && a(k, k) < -tau <= 0.0
    ensures SmallDirection(n, a, k, tau, Unit(k))
  {
    TailUnit(n, a, k, k);
    SquaresUnit(n, k, k);
    assert Unit(k)(k) != 0.0;
  }

  // ------------------------------------------------------------ main theorems

  /** Acceptance bounds the quadratic form below, for every square matrix: the
      test certifies the symmetric matrix stored in the lower triangle. */
  lemma AcceptedFormBound(n: nat, a: Mat, tau: real, x: Vec)
    requires tau >= 0.0 && Accepts(n, a, 0, tau)
    ensures Quad(n, Lower(a), x) >= -(tau * Square(AbsSum(n, x)))
  {
    hide Sum, TailForm, QuadFrom, Accepts, Square;
    AcceptsBoundsTail(n, a, 0, tau, x);
    TailFormIsQuad(n, a, 0, x);
  }

  /** At tolerance zero the test decides positive semidefiniteness. */
  lemma AcceptsIffSemidefinite(n: nat, a: Mat)
    ensures Accepts(n, a, 0, 0.0) <==> PositiveSemidefinite(n, Lower(a))
  {
    hide Sum, TailForm, Accepts, QuadFrom;
    if Accepts(n, a, 0, 0.0) {
      forall x: Vec ensures Quad(n, Lower(a), x) >= 0.0 {
        AcceptedFormBound(n, a, 0.0, x);
      }
    } else {
      var x := RejectsHasNegative(n, a, 0);
      TailFormIsQuad(n, a, 0, x);
      assert Quad(n, Lower(a), x) < 0.0;
    }
  }

  /** Rejection at any tolerance, the shipped one included, bounds the form from above
      in some nonzero direction: together with the bound acceptance gives, the test is
      pinned from both sides. */
  lemma RejectsHasSmallForm(n: nat, a: Mat, tau: real) returns (x: Vec)
    requires tau >= 0.0 && !Accepts(n, a, 0, tau)
    ensures (exists i :: 0 <= i < n && x(i) != 0.0) && Quad(n, Lower(a), x) <= tau * Dot(n, x, x)
  {
    hide Sum, TailForm, QuadFrom, Accepts;
    x := RejectsHasSmallTail(n, a, 0, tau);
    TailFormIsQuad(n, a, 0, x);
  }

  /** The test decides semidefiniteness at tolerance zero and at no other. */
  lemma DecidesOnlyAtZero(tau: real)
    requires tau >= 0.0
    ensures (forall n: nat, a: Mat :: Accepts(n, a, 0, tau) <==> PositiveSemidefinite(n, Lower(a))) <==> tau == 0.0
  {
    hide PositiveSemidefinite;
    if tau == 0.0 {
      forall n: nat, a: Mat ensures Accepts(n, a, 0, tau) <==> PositiveSemidefinite(n, Lower(a)) {
        AcceptsIffSemidefinite(n, a);
      }
    } else {
      ErrsBothWays(tau);
    }
  }

  /** At every positive tolerance the test errs in both directions. */
  lemma ErrsBothWays(tau: real)
    requires tau > 0.0
    ensures var a := Entries([[-tau]]); Accepts(1, a, 0, tau) && !PositiveSemidefinite(1, Lower(a))
    ensures var a := Entries([[tau, 2.0 * tau], [2.0 * tau, 4.0 * tau]]);
            !Accepts(2, a, 0, tau) && PositiveSemidefinite(2, Lower(a))
    ensures var a := Entries([[tau, 2.0 * tau], [2.0 * tau, 5.0 * tau]]);
            !Accepts(2, a, 0, tau) && PositiveDefinite(2, Lower(a))
  {
    hide PositiveSemidefinite, PositiveDefinite;
    AcceptsNegative(tau);
    RejectsFlat(tau);
    RejectsDefinite(tau);
  }

  /** Positive at every vector that is not zero. */
  ghost predicate PositiveDefinite(n: nat, a: Mat) {
    forall x: Vec | NonzeroFrom(n, 0, x) :: Quad(n, a, x) > 0.0
  }

  lemma RejectsDefinite(tau: real)
    requires tau > 0.0
    ensures var a := Entries([[tau, 2.0 * tau], [2.0 * tau, 5.0 * tau]]);
            !Accepts(2, a, 0, tau) && PositiveDefinite(2, Lower(a))
  {
    hide PositiveDefinite, TailForm;
    var rows := [[tau, 2.0 * tau], [2.0 * tau, 5.0 * tau]];
    var a := Entries(rows);
    assert a(0, 0) == tau && a(1, 0) == 2.0 * tau && a(1, 1) == 5.0 * tau;
    assert !ColumnBelowWithin(2, a, 0, tau);
    FourTimes(tau);
    ExactQuotient(a(1, 0) * a(1, 0), 4.0 * tau, a(0, 0));
    assert Eliminate(a, 0)(1, 1) == tau;
    PositivePivots(a);
  }

  /** Two positive pivots make the form of a two by two matrix positive. */
  lemma PositivePivots(a: Mat)
    requires a(0, 0) > 0.0 && Eliminate(a, 0)(1, 1) > 0.0
    ensures PositiveDefinite(2, Lower(a))
  {
    hide Quad;
    forall x: Vec | NonzeroFrom(2, 0, x) ensures Quad(2, Lower(a), x) > 0.0 {
      FormPositive(a, x);
    }
  }

  lemma FormPositive(a: Mat, x: Vec)
    requires a(0, 0) > 0.0 && Eliminate(a, 0)(1, 1) > 0.0 && (x(0) != 0.0 || x(1) != 0.0)
    ensures Quad(2, Lower(a), x) > 0.0
  {
    hide Eliminate, TailForm, Below, Square, QuadFrom;
    TailFormIsQuad(2, a, 0, x);
    PivotStep(2, a, 0, x);
    LastPivot(a, x);
    var shift := Below(2, a, 0, 1, x) / a(0, 0);
    PositiveSquares(a(0, 0), x(0) + shift, Eliminate(a, 0)(1, 1), x(1));
  }

  lemma LastPivot(a: Mat, x: Vec)
    requires a(0, 0) != 0.0
    ensures TailForm(2, Eliminate(a, 0), 1, x) == Eliminate(a, 0)(1, 1) * Square(x(1))
    ensures Below(2, a, 0, 1, x) == a(1, 0) * x(1)
  {
    hide Eliminate;
    UnfoldTail(2, Eliminate(a, 0), 1, x);
    UnfoldBelow(2, Eliminate(a, 0), 1, 2, x);
    UnfoldBelow(2, a, 0, 1, x);
    UnfoldBelow(2, a, 0, 2, x);
  }

  lemma PositiveSquares(p: real, u: real, q: real, v: real)
    requires p > 0.0 && q > 0.0 && (u != 0.0 || v != 0.0)
    ensures p * Square(u) + q * Square(v) > 0.0
  {
    hide Square;
    SquareNonnegative(u);
    SquareNonnegative(v);
    NonnegativeProduct(p, Square(u));
    NonnegativeProduct(q, Square(v));
    if u != 0.0 {
      PositiveProduct(p, Square(u));
    } else {
      PositiveProduct(q, Square(v));
    }
  }

  lemma AcceptsNegative(tau: real)
    requires tau > 0.0
    ensures var a := Entries([[-tau]]); Accepts(1, a, 0, tau) && !PositiveSemidefinite(1, Lower(a))
  {
    var a := Entries([[-tau]]);
    assert a(0, 0) == -tau && Lower(a)(0, 0) == -tau;
    assert Accepts(1, a, 1, tau);
    QuadUnit(1, Lower(a), 0);
    assert Quad(1, Lower(a), Unit(0)) < 0.0;
  }

  lemma RejectsFlat(tau: real)
    requires tau > 0.0
    ensures var a := Entries([[tau, 2.0 * tau], [2.0 * tau, 4.0 * tau]]);
            !Accepts(2, a, 0, tau) && PositiveSemidefinite(2, Lower(a))
  {
    hide PositiveSemidefinite;
    var rows := [[tau, 2.0 * tau], [2.0 * tau, 4.0 * tau]];
    var a := Entries(rows);
    assert a(0, 0) == tau && a(1, 0) == 2.0 * tau && a(1, 1) == 4.0 * tau;
    assert !ColumnBelowWithin(2, a, 0, tau);
    FourTimes(tau);
    FlatAccepted(a);
    AcceptsIffSemidefinite(2, a);
  }

  lemma FlatAccepted(a: Mat)
    requires a(0, 0) > 0.0 && a(1, 0) * a(1, 0) == a(1, 1) * a(0, 0)
    ensures Accepts(2, a, 0, 0.0)
  {
    var e := Eliminate(a, 0);
    ExactQuotient(a(1, 0) * a(1, 0), a(1, 1), a(0, 0));
    assert e(1, 1) == 0.0;
    assert Accepts(2, e, 2, 0.0) && Accepts(2, e, 1, 0.0);
  }

  lemma FourTimes(tau: real)
    ensures (2.0 * tau) * (2.0 * tau) == (4.0 * tau) * tau
  {
  }

  lemma ExactQuotient(u: real, z: real, x: real)
    requires u == z * x && x != 0.0
    ensures u / x == z
  {
    CancelFactor(u / x, z, x);
  }

  /** The equivalence needs tolerance zero: the shipped tolerance 1e-10 rejects
      a positive definite matrix. */
  lemma PositiveToleranceRejectsSemidefinite()
    ensures var a := Entries([[0.00000000001, 0.000001], [0.000001, 1.0]]);
            PositiveSemidefinite(2, a) && PositiveDefinite(2, a) && !Accepts(2, a, 0, 0.0000000001)
  {
    hide PositiveDefinite, PositiveSemidefinite;
    var rows := [[0.00000000001, 0.000001], [0.000001, 1.0]];
    var a := Entries(rows);
    assert a(0, 0) == 0.00000000001 && a(1, 0) == 0.000001 && a(0, 1) == 0.000001 && a(1, 1) == 1.0;
    var e := Eliminate(a, 0);
    assert e(1, 1) == 0.9;
    PositivePivots(a);
    assert Accepts(2, e, 2, 0.0) && Accepts(2, e, 1, 0.0) && Accepts(2, a, 0, 0.0);
    AcceptsIffSemidefinite(2, a);
    SameForms(a);
  }

  lemma SameForms(a: Mat)
    requires a(0, 1) == a(1, 0) && PositiveSemidefinite(2, Lower(a)) && PositiveDefinite(2, Lower(a))
    ensures PositiveSemidefinite(2, a) && PositiveDefinite(2, a)
  {
    hide Quad;
    forall x: Vec ensures Quad(2, a, x) == Quad(2, Lower(a), x) {
      QuadCongruence(2, a, Lower(a), x);
    }
  }

  // ------------------------------------------------------ the in-place loops

  method CopyRows(values: seq<seq<real>>) returns (m: array2<real>)
    requires IsSquare(values)
    ensures fresh(m) && Holds(m, |values|, Entries(values))
  {
    var n := |values|;
    m := new real[n, n];
    for i := 0 to n
      invariant forall r, c | 0 <= r < i && 0 <= c < n :: m[r, c] == values[r][c]
    {
      for j := 0 to n
        invariant forall r, c | 0 <= r < i && 0 <= c < n :: m[r, c] == values[r][c]
        invariant forall c | 0 <= c < j :: m[i, c] == values[i][c]
      {
        m[i, j] := values[i][j];
      }
    }
  }

  /** The inner two loops: subtract the rank-one term from the trailing block. */
  method EliminateInPlace(m: array2<real>, n: nat, ghost a: Mat, k: nat)
    requires k < n && Holds(m, n, a) && a(k, k) != 0.0
    modifies m
    ensures Holds(m, n, Eliminate(a, k))
  {
    var pivot := m[k, k];
    ghost var e := Eliminate(a, k);
    for row := k + 1 to n
      invariant forall i, j | 0 <= i < n && 0 <= j < n ::
        m[i, j] == if k < i < row || k < j < row then (if k < i && k < j then e(i, j) else a(i, j)) else a(i, j)
    {
      for column := row to n
        invariant forall i, j | 0 <= i < n && 0 <= j < n ::
          m[i, j] == if (k < i < row && k < j) || (k < i && k < j < row)
                     || (i == row && row <= j < column) || (j == row && row <= i < column)
                     then e(i, j) else a(i, j)
      {
        var updated := m[column, row] - m[column, k] * m[row, k] / pivot;
        m[column, row] := updated;
        m[row, column] := updated;
      }
    }
  }

  /** The covariance test, for any tolerance; the source fixes 1e-10. */
  method TestPositiveSemidefinite(values: seq<seq<real>>, tolerance: real) returns (ok: bool)
    requires IsSquare(values) && tolerance >= 0.0
    ensures ok == Accepts(|values|, Entries(values), 0, tolerance)
  {
    var matrix := CopyRows(values);
    var n := |values|;
    ghost var a := Entries(values);
    for k := 0 to n
      invariant fresh(matrix) && Holds(matrix, n, a)
      invariant Accepts(n, a, k, tolerance) == Accepts(n, Entries(values), 0, tolerance)
    {
      var pivot := matrix[k, k];
      if pivot < -tolerance {
        return false;
      }
      if Abs(pivot) <= tolerance {
        for row := k + 1 to n
          invariant forall r | k < r < row :: Abs(a(r, k)) <= tolerance
        {
          if Abs(matrix[row, k]) > tolerance {
            return false;
          }
        }
      } else {
        EliminateInPlace(matrix, n, a, k);
        a := Eliminate(a, k);
      }
    }
    return true;
  }
}
