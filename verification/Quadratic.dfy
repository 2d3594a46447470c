/** Dot products, quadratic forms and unit vectors over the index range 0..n. */
module Quadratic {
  import opened Reals
  import opened Sums

  function Times(u: Vec, v: Vec): Vec {
    i => u(i) * v(i)
  }

  /** u_lo v_lo + ... + u_{n-1} v_{n-1}. */
  function DotFrom(lo: int, n: nat, u: Vec, v: Vec): real {
    Sum(lo, n, Times(u, v))
  }

  function Dot(n: nat, u: Vec, v: Vec): real {
    DotFrom(0, n, u, v)
  }

  function Row(a: Mat, i: int): Vec {
    j => a(i, j)
  }

  function Column(a: Mat, j: int): Vec {
    i => a(i, j)
  }

  /** The vector A x, using the columns lo..n only. */
  function ApplyFrom(lo: int, n: nat, a: Mat, x: Vec): Vec {
    i => DotFrom(lo, n, Row(a, i), x)
  }

  function Apply(n: nat, a: Mat, x: Vec): Vec {
    ApplyFrom(0, n, a, x)
  }

  /** x' A x on the block of rows and columns lo..n. */
  function QuadFrom(lo: int, n: nat, a: Mat, x: Vec): real {
    DotFrom(lo, n, x, ApplyFrom(lo, n, a, x))
  }

  /** x' A x. */
  function Quad(n: nat, a: Mat, x: Vec): real {
    QuadFrom(0, n, a, x)
  }

  /** |x_0| + ... + |x_{n-1}|. */
  function AbsSum(n: nat, x: Vec): real {
    Sum(0, n, Absolutes(x))
  }

  function Absolutes(x: Vec): Vec {
    i => Abs(x(i))
  }

  function Unit(p: int): Vec {
    i => if i == p then 1.0 else 0.0
  }

  ghost predicate Symmetric(n: nat, a: Mat) {
    forall i, j | 0 <= i < n && 0 <= j < n :: a(i, j) == a(j, i)
  }

  ghost predicate PositiveSemidefinite(n: nat, a: Mat) {
    forall x: Vec :: Quad(n, a, x) >= 0.0
  }

  function Values(row: seq<real>): Vec {
    i => if 0 <= i < |row| then row[i] else 0.0
  }

  function Entries(rows: seq<seq<real>>): Mat {
    (i, j) => if 0 <= i < |rows| && 0 <= j < |rows[i]| then rows[i][j] else 0.0
  }

  /** The array stores the n by n matrix a. */
  ghost predicate Holds(m: array2<real>, n: nat, a: Mat)
    reads m
  {
    m.Length0 == n && m.Length1 == n && forall i, j | 0 <= i < n && 0 <= j < n :: m[i, j] == a(i, j)
  }

  predicate IsSquare(rows: seq<seq<real>>) {
    forall i | 0 <= i < |rows| :: |rows[i]| == |rows|
  }

  /** The entry of A that the lower triangle stores for the pair {i, j}. */
  function Lower(a: Mat): Mat {
    (i, j) => if j <= i then a(i, j) else a(j, i)
  }

  lemma DotUnit(n: nat, u: Vec, p: int)
    requires 0 <= p < n
    ensures Dot(n, u, Unit(p)) == u(p)
    ensures Dot(n, Unit(p), u) == u(p)
  {
    SumSingle(0, n, p, Times(u, Unit(p)));
    SumSingle(0, n, p, Times(Unit(p), u));
  }

  lemma DotCongruence(n: nat, u: Vec, v: Vec, s: Vec, t: Vec)
    requires forall i | 0 <= i < n :: u(i) == s(i) && v(i) == t(i)
    ensures Dot(n, u, v) == Dot(n, s, t)
  {
    SumCongruence(0, n, Times(u, v), Times(s, t));
  }

  lemma QuadCongruence(n: nat, a: Mat, b: Mat, x: Vec)
    requires forall i, j | 0 <= i < n && 0 <= j < n :: a(i, j) == b(i, j)
    ensures Quad(n, a, x) == Quad(n, b, x)
  {
    forall i | 0 <= i < n ensures Apply(n, a, x)(i) == Apply(n, b, x)(i) {
      DotCongruence(n, Row(a, i), x, Row(b, i), x);
    }
    DotCongruence(n, x, Apply(n, a, x), x, Apply(n, b, x));
  }

  /** Dot is linear in its first argument. */
  lemma DotLinear(lo: int, n: nat, p: real, u: Vec, q: real, v: Vec, w: Vec, x: Vec)
    requires forall i | lo <= i < n :: w(i) == p * u(i) + q * v(i)
    ensures DotFrom(lo, n, w, x) == p * DotFrom(lo, n, u, x) + q * DotFrom(lo, n, v, x)
  {
    forall i | lo <= i < n ensures w(i) * x(i) == p * (u(i) * x(i)) + q * (v(i) * x(i)) {
      calc {
        w(i) * x(i);
        (p * u(i) + q * v(i)) * x(i);
        p * (u(i) * x(i)) + q * (v(i) * x(i));
      }
    }
    SumLinear(lo, n, p, Times(u, x), q, Times(v, x), Times(w, x));
  }

  lemma DotCommutes(lo: int, n: nat, u: Vec, v: Vec)
    ensures DotFrom(lo, n, u, v) == DotFrom(lo, n, v, u)
  {
    SumCongruence(lo, n, Times(u, v), Times(v, u));
  }

  lemma QuadUnit(n: nat, a: Mat, p: int)
    requires 0 <= p < n
    ensures Quad(n, a, Unit(p)) == a(p, p)
  {
    DotUnit(n, Apply(n, a, Unit(p)), p);
    DotUnit(n, Row(a, p), p);
  }

  function RowSums(n: nat, m: Mat): Vec {
    i => Sum(0, n, Row(m, i))
  }

  function ColumnSums(lo: int, hi: int, m: Mat): Vec {
    j => Sum(lo, hi, Column(m, j))
  }

  lemma {:induction false} SumSwap(lo: int, hi: int, n: nat, m: Mat)
    ensures Sum(lo, hi, RowSums(n, m)) == Sum(0, n, ColumnSums(lo, hi, m))
    decreases hi - lo
  {
    if lo < hi {
      SumSwap(lo + 1, hi, n, m);
      SumAdd(0, n, Row(m, lo), ColumnSums(lo + 1, hi, m), ColumnSums(lo, hi, m));
    } else {
      SumConstantZero(n, ColumnSums(lo, hi, m));
    }
  }

  /** A symmetric matrix may move to the other factor. */
  lemma SymmetricProduct(n: nat, a: Mat, u: Vec, v: Vec)
    requires Symmetric(n, a)
    ensures Dot(n, u, Apply(n, a, v)) == Dot(n, v, Apply(n, a, u))
  {
    hide Sum;
    var m := (i: int, j: int) => u(i) * (a(i, j) * v(j));
    forall i | 0 <= i < n ensures Times(u, Apply(n, a, v))(i) == RowSums(n, m)(i) {
      SumScale(0, n, u(i), Times(Row(a, i), v), Row(m, i));
    }
    forall j | 0 <= j < n ensures Times(v, Apply(n, a, u))(j) == ColumnSums(0, n, m)(j) {
      forall i | 0 <= i < n ensures Column(m, j)(i) == v(j) * Times(Row(a, j), u)(i) {
        assert a(i, j) == a(j, i);
        MoveFactor(u(i), a(i, j), v(j));
      }
      SumScale(0, n, v(j), Times(Row(a, j), u), Column(m, j));
    }
    SumSwap(0, n, n, m);
    SumCongruence(0, n, Times(u, Apply(n, a, v)), RowSums(n, m));
    SumCongruence(0, n, Times(v, Apply(n, a, u)), ColumnSums(0, n, m));
  }

  lemma MoveFactor(u: real, a: real, v: real)
    ensures u * (a * v) == v * (a * u)
  {
  }

  /** A vector with weight v at index p and weight w at index q (added if equal). */
  function Pair(p: int, v: real, q: int, w: real): Vec {
    i => (if i == p then v else 0.0) + (if i == q then w else 0.0)
  }

  lemma DotPair(n: nat, u: Vec, p: int, v: real, q: int, w: real)
    requires 0 <= p < n && 0 <= q < n
    ensures Dot(n, Pair(p, v, q, w), u) == v * u(p) + w * u(q)
  {
    hide Sum, Unit;
    PairIsCombination(n, p, v, q, w);
    DotLinear(0, n, v, Unit(p), w, Unit(q), Pair(p, v, q, w), u);
    DotUnit(n, u, p);
    DotUnit(n, u, q);
  }

  lemma PairIsCombination(n: nat, p: int, v: real, q: int, w: real)
    ensures forall i | 0 <= i < n :: Pair(p, v, q, w)(i) == v * Unit(p)(i) + w * Unit(q)(i)
  {
  }

  /** The form of a vector with two nonzero entries. */
  lemma QuadPair(n: nat, a: Mat, p: int, v: real, q: int, w: real)
    requires 0 <= p < n && 0 <= q < n
    ensures Quad(n, a, Pair(p, v, q, w))
         == Square(v) * a(p, p) + Square(w) * a(q, q) + (v * w) * (a(p, q) + a(q, p))
  {
    hide Sum, Pair, Square;
    var x := Pair(p, v, q, w);
    DotPair(n, Apply(n, a, x), p, v, q, w);
    PairRow(n, a, p, p, v, q, w);
    PairRow(n, a, q, p, v, q, w);
    ExpandPair(v, w, a(p, p), a(p, q), a(q, p), a(q, q));
  }

  lemma PairRow(n: nat, a: Mat, i: int, p: int, v: real, q: int, w: real)
    requires 0 <= p < n && 0 <= q < n
    ensures Apply(n, a, Pair(p, v, q, w))(i) == v * a(i, p) + w * a(i, q)
  {
    hide Sum, Pair;
    DotCommutes(0, n, Row(a, i), Pair(p, v, q, w));
    DotPair(n, Row(a, i), p, v, q, w);
  }

  lemma ExpandPair(v: real, w: real, pp: real, pq: real, qp: real, qq: real)
    ensures v * (v * pp + w * pq) + w * (v * qp + w * qq)
         == Square(v) * pp + Square(w) * qq + (v * w) * (pq + qp)
  {
    assert v * (v * pp + w * pq) == Square(v) * pp + (v * w) * pq;
    assert w * (v * qp + w * qq) == (v * w) * qp + Square(w) * qq;
  }

  /** |v| + |w| bounds the norm of a two-entry vector. */
  lemma AbsSumPair(n: nat, p: int, v: real, q: int, w: real)
    requires 0 <= p < n && 0 <= q < n
    ensures 0.0 <= AbsSum(n, Pair(p, v, q, w)) <= Abs(v) + Abs(w)
  {
    var x := Pair(p, v, q, w);
    var zero := (i: int) => 0.0;
    var bound := Pair(p, Abs(v), q, Abs(w));
    forall i ensures zero(i) <= Absolutes(x)(i) <= bound(i) {
      assert Absolutes(x)(i) == Abs(x(i));
    }
    SumConstantZero(n, zero);
    SumMonotone(0, n, zero, Absolutes(x));
    SumMonotone(0, n, Absolutes(x), bound);
    DotPair(n, (i: int) => 1.0, p, Abs(v), q, Abs(w));
    SumCongruence(0, n, bound, Times(bound, (i: int) => 1.0));
  }
}
