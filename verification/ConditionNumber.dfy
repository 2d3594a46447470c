/** The condition number of a design matrix
    (src/envresearch/econometrics/_valuation_diagnostics.py, lines 222-232).
    The square root is left unevaluated: a result is the ratio under it. */
module ConditionNumber {
  import opened Reals
  import opened Sums
  import opened Quadratic
  import opened Spectra
  import opened Extremes
  import opened Jacobi

  datatype Outcome = SingularDesign | SquaredRatio(value: real)

  ghost predicate IsDesign(matrix: seq<seq<real>>) {
    |matrix| > 0 && |matrix[0]| > 0 && forall i | 0 <= i < |matrix| :: |matrix[i]| == |matrix[0]|
  }

  function Gram(rows: seq<seq<real>>): Mat {
    (l, r) => GramEntry(rows, l, r)
  }

  function GramEntry(rows: seq<seq<real>>, l: int, r: int): real {
    if rows == [] then 0.0 else Values(rows[0])(l) * Values(rows[0])(r) + GramEntry(rows[1..], l, r)
  }

  /** The squared length of the design's image of x. */
  function ImageSquares(rows: seq<seq<real>>, k: nat, x: Vec): real {
    if rows == [] then 0.0 else Square(Dot(k, Values(rows[0]), x)) + ImageSquares(rows[1..], k, x)
  }

  function Outer(u: Vec): Mat {
    (i, j) => u(i) * u(j)
  }

  lemma QuadAdds(k: nat, a: Mat, b: Mat, sum: Mat, x: Vec)
    requires forall i, j | 0 <= i < k && 0 <= j < k :: sum(i, j) == a(i, j) + b(i, j)
    ensures Quad(k, sum, x) == Quad(k, a, x) + Quad(k, b, x)
  {
    hide Sum;
    forall i | 0 <= i < k ensures Apply(k, sum, x)(i) == 1.0 * Apply(k, a, x)(i) + 1.0 * Apply(k, b, x)(i) {
      DotLinear(0, k, 1.0, Row(a, i), 1.0, Row(b, i), Row(sum, i), x);
    }
    DotLinear(0, k, 1.0, Apply(k, a, x), 1.0, Apply(k, b, x), Apply(k, sum, x), x);
    DotCommutes(0, k, Apply(k, a, x), x);
    DotCommutes(0, k, Apply(k, b, x), x);
    DotCommutes(0, k, Apply(k, sum, x), x);
  }

  lemma QuadOuter(k: nat, u: Vec, x: Vec)
    ensures Quad(k, Outer(u), x) == Square(Dot(k, u, x))
  {
    hide Sum;
    var d := Dot(k, u, x);
    forall i | 0 <= i < k ensures Apply(k, Outer(u), x)(i) == d * u(i) + 0.0 * u(i) {
      forall j | 0 <= j < k ensures Row(Outer(u), i)(j) == u(i) * u(j) + 0.0 * u(j) {
      }
      DotLinear(0, k, u(i), u, 0.0, u, Row(Outer(u), i), x);
    }
    DotLinear(0, k, d, u, 0.0, u, Apply(k, Outer(u), x), x);
    DotCommutes(0, k, x, Apply(k, Outer(u), x));
  }

  /** The form of a Gram matrix is the squared length of the image. */
  lemma {:induction false} GramForm(rows: seq<seq<real>>, k: nat, x: Vec)
    ensures Quad(k, Gram(rows), x) == ImageSquares(rows, k, x) >= 0.0
  {
    hide Dot, Quad, Square;
    if rows == [] {
      ZeroForm(k, Gram(rows), x);
    } else {
      GramForm(rows[1..], k, x);
      QuadOuter(k, Values(rows[0]), x);
      QuadAdds(k, Outer(Values(rows[0])), Gram(rows[1..]), Gram(rows), x);
      SquareNonnegative(Dot(k, Values(rows[0]), x));
    }
  }

  lemma ZeroForm(k: nat, a: Mat, x: Vec)
    requires forall i, j | 0 <= i < k && 0 <= j < k :: a(i, j) == 0.0
    ensures Quad(k, a, x) == 0.0
  {
    hide Quad;
    QuadAdds(k, a, a, a, x);
  }

  lemma {:induction false} ZeroImage(rows: seq<seq<real>>, k: nat, x: Vec)
    requires ImageSquares(rows, k, x) == 0.0
    ensures forall i | 0 <= i < |rows| :: Dot(k, Values(rows[i]), x) == 0.0
  {
    hide Dot, Square;
    if rows != [] {
      GramForm(rows[1..], k, x);
      SquareNonnegative(Dot(k, Values(rows[0]), x));
      ZeroImage(rows[1..], k, x);
      assert forall i | 0 < i < |rows| :: rows[i] == rows[1..][i - 1];
    }
  }

  lemma GramSemidefinite(rows: seq<seq<real>>, k: nat)
    ensures Symmetric(k, Gram(rows)) && PositiveSemidefinite(k, Gram(rows))
  {
    hide Quad;
    forall i, j | 0 <= i < k && 0 <= j < k ensures Gram(rows)(i, j) == Gram(rows)(j, i) {
      GramSymmetric(rows, i, j);
    }
    forall x: Vec ensures Quad(k, Gram(rows), x) >= 0.0 {
      GramForm(rows, k, x);
    }
  }

  lemma {:induction false} GramSymmetric(rows: seq<seq<real>>, l: int, r: int)
    ensures GramEntry(rows, l, r) == GramEntry(rows, r, l)
  {
    if rows != [] {
      GramSymmetric(rows[1..], l, r);
    }
  }

  /** Some combination y of the columns, of length one, vanishes on every row. */
  ghost predicate DependentColumns(matrix: seq<seq<real>>)
    requires IsDesign(matrix)
  {
    exists y: Vec :: Dot(|matrix[0]|, y, y) == 1.0 && Vanishes(matrix, y)
  }

  ghost predicate Vanishes(matrix: seq<seq<real>>, y: Vec)
    requires IsDesign(matrix)
  {
    forall i | 0 <= i < |matrix| :: Dot(|matrix[0]|, Values(matrix[i]), y) == 0.0
  }

  /** A zero on the rotated diagonal is a real linear dependence of the design. */
  lemma ZeroDiagonalIsDependence(matrix: seq<seq<real>>, final: Mat, turns: seq<Turn>, p: nat)
    requires IsDesign(matrix) && p < |matrix[0]|
    requires Conserved(|matrix[0]|, Gram(matrix), final, turns) && final(p, p) == 0.0
    ensures DependentColumns(matrix)
  {
    hide Quad, Dot, Conserved;
    var k := |matrix[0]|;
    var y := Along(turns, Unit(p));
    DiagonalAttained(k, Gram(matrix), final, turns, p);
    GramForm(matrix, k, y);
    ZeroImage(matrix, k, y);
    assert Vanishes(matrix, y);
  }

  /** Two unit vectors whose images' squared lengths stand in this ratio. */
  ghost predicate IsStretchRatio(matrix: seq<seq<real>>, ratio: real)
    requires IsDesign(matrix)
  {
    exists u: Vec, v: Vec :: StretchesBy(matrix, ratio, u, v)
  }

  ghost predicate StretchesBy(matrix: seq<seq<real>>, ratio: real, u: Vec, v: Vec)
    requires IsDesign(matrix)
  {
    var k := |matrix[0]|;
    && Dot(k, u, u) == 1.0 && Dot(k, v, v) == 1.0
    && ImageSquares(matrix, k, v) > 0.0
    && ImageSquares(matrix, k, u) == ratio * ImageSquares(matrix, k, v)
  }

  lemma ValueIsImage(matrix: seq<seq<real>>, final: Mat, turns: seq<Turn>, values: seq<real>, value: real)
    returns (v: Vec)
    requires IsDesign(matrix) && Conserved(|matrix[0]|, Gram(matrix), final, turns)
    requires ListsDiagonal(|matrix[0]|, final, values) && value in values
    ensures Dot(|matrix[0]|, v, v) == 1.0 && ImageSquares(matrix, |matrix[0]|, v) == value
  {
    hide Quad, Dot, Conserved;
    var k := |matrix[0]|;
    var i: nat :| i < k && values[i] == value;
    v := Along(turns, Unit(i));
    DiagonalAttained(k, Gram(matrix), final, turns, i);
    GramForm(matrix, k, v);
  }

  lemma RatioIsStretch(matrix: seq<seq<real>>, final: Mat, turns: seq<Turn>, values: seq<real>)
    requires IsDesign(matrix) && Conserved(|matrix[0]|, Gram(matrix), final, turns)
    requires ListsDiagonal(|matrix[0]|, final, values) && Least(values) > 0.0
    ensures IsStretchRatio(matrix, Greatest(values) / Least(values))
  {
    hide Conserved, Dot;
    var u := ValueIsImage(matrix, final, turns, values, Greatest(values));
    var v := ValueIsImage(matrix, final, turns, values, Least(values));
    assert StretchesBy(matrix, Greatest(values) / Least(values), u, v);
  }

  /** Every unit combination of the columns has a squared length between these. */
  ghost predicate StretchBounded(matrix: seq<seq<real>>, low: real, high: real)
    requires IsDesign(matrix)
  {
    forall y: Vec | Dot(|matrix[0]|, y, y) == 1.0 :: low <= ImageSquares(matrix, |matrix[0]|, y) <= high
  }

  /** No unit combination is stretched beyond the extreme values by more than k eps. */
  ghost predicate StretchWithin(matrix: seq<seq<real>>, values: seq<real>, eps: real)
    requires IsDesign(matrix) && values != []
  {
    var k := |matrix[0]| as real;
    StretchBounded(matrix, Least(values) - k * eps, Greatest(values) + k * eps)
  }

  lemma BoundedFormBoundsStretch(matrix: seq<seq<real>>, values: seq<real>, tolerance: real)
    requires IsDesign(matrix) && values != [] && FormBounded(|matrix[0]|, Gram(matrix), values, tolerance)
    ensures StretchWithin(matrix, values, tolerance)
  {
    hide Dot, Quad;
    forall y: Vec | Dot(|matrix[0]|, y, y) == 1.0
      ensures Least(values) - |matrix[0]| as real * tolerance <= ImageSquares(matrix, |matrix[0]|, y)
      ensures ImageSquares(matrix, |matrix[0]|, y) <= Greatest(values) + |matrix[0]| as real * tolerance
    {
      GramForm(matrix, |matrix[0]|, y);
    }
  }

  /** The values are the diagonal that the iteration leaves of the Gram matrix. */
  ghost predicate Diagonalizes(matrix: seq<seq<real>>, tolerance: real, values: seq<real>, final: Mat, turns: seq<Turn>)
    requires IsDesign(matrix)
  {
    var k := |matrix[0]|;
    && Conserved(k, Gram(matrix), final, turns)
    && ListsDiagonal(k, final, values)
    && Shrunk(k, Gram(matrix), final, |turns|)
    && Stopped(k, final, turns, tolerance)
  }

  /** The eigenvalues of the Gram matrix. */
  method GramEigenvalues(matrix: seq<seq<real>>, tolerance: real, angle: Angle)
    returns (values: seq<real>, ghost final: Mat, ghost turns: seq<Turn>)
    requires IsDesign(matrix) && tolerance >= 0.0 && Annihilates(angle)
    ensures Diagonalizes(matrix, tolerance, values, final, turns)
    ensures |values| == |matrix[0]| && Least(values) >= 0.0
    ensures IsDiagonal(|matrix[0]|, final) ==>
              forall lambda :: IsEigenvalue(|matrix[0]|, Gram(matrix), lambda) <==> lambda in values
    ensures |turns| < IterationLimit(|matrix[0]|) ==> StretchWithin(matrix, values, tolerance)
    ensures forall eps | eps >= tolerance && WithinReach(|matrix[0]|, Gram(matrix), eps) ::
              StretchWithin(matrix, values, eps)
  {
    hide Conserved, Shrunk, PositiveSemidefinite, Gram, FormBounded, StretchWithin;
    hide IsDiagonal, IsEigenvalue, IterationLimit, WithinReach;
    var k := |matrix[0]|;
    var gram := new real[k, k]((i, j) => GramEntry(matrix, i, j));
    assert Holds(gram, k, Gram(matrix)) by { GramIsEntry(matrix); }
    GramSemidefinite(matrix, k);
    values, final, turns := SymmetricEigenvalues(gram, Gram(matrix), tolerance, angle);
    ConservedSemidefinite(k, Gram(matrix), final, turns);
    if |turns| < IterationLimit(k) {
      BoundedFormBoundsStretch(matrix, values, tolerance);
    }
    forall eps | eps >= tolerance && WithinReach(k, Gram(matrix), eps) ensures StretchWithin(matrix, values, eps) {
      BoundedFormBoundsStretch(matrix, values, eps);
    }
  }

  lemma GramIsEntry(matrix: seq<seq<real>>)
    ensures forall i, j :: Gram(matrix)(i, j) == GramEntry(matrix, i, j)
  {
  }

  lemma ZeroValueIsDependence(matrix: seq<seq<real>>, final: Mat, turns: seq<Turn>, values: seq<real>)
    requires IsDesign(matrix) && Conserved(|matrix[0]|, Gram(matrix), final, turns)
    requires ListsDiagonal(|matrix[0]|, final, values) && Least(values) == 0.0
    ensures DependentColumns(matrix)
  {
    hide Conserved, DependentColumns, Gram;
    var p: nat :| p < |values| && values[p] == Least(values);
    ZeroDiagonalIsDependence(matrix, final, turns, p);
  }

  /** The value under the root is the ratio of the extreme entries of a diagonal that
      is orthogonally similar to the Gram matrix.  It is the ratio of two squared
      lengths the design really gives unit vectors, and no unit vector is stretched beyond
      those extremes by more than the tolerance allows, or by more than whatever larger
      eps the iteration limit reaches from the Gram matrix.
      The error is raised exactly when the least of them is zero. */
  method ComputeConditionNumber(matrix: seq<seq<real>>, tolerance: real, angle: Angle)
    returns (r: Outcome, ghost values: seq<real>, ghost final: Mat, ghost turns: seq<Turn>)
    requires IsDesign(matrix) && tolerance >= 0.0 && Annihilates(angle)
    ensures Diagonalizes(matrix, tolerance, values, final, turns)
    ensures |values| == |matrix[0]| && Least(values) >= 0.0
    ensures r.SingularDesign? <==> Least(values) == 0.0
    ensures r.SingularDesign? ==> DependentColumns(matrix)
    ensures r.SquaredRatio? ==> r.value == Greatest(values) / Least(values) >= 1.0 && IsStretchRatio(matrix, r.value)
    ensures IsDiagonal(|matrix[0]|, final) ==>
              forall lambda :: IsEigenvalue(|matrix[0]|, Gram(matrix), lambda) <==> lambda in values
    ensures |turns| < IterationLimit(|matrix[0]|) ==> StretchWithin(matrix, values, tolerance)
    ensures forall eps | eps >= tolerance && WithinReach(|matrix[0]|, Gram(matrix), eps) ::
              StretchWithin(matrix, values, eps)
  {
    hide Conserved, Shrunk, Gram, ListsDiagonal, StretchWithin, IsStretchRatio, DependentColumns;
    hide IsDiagonal, IsEigenvalue, IterationLimit, WithinReach;
    var eigenvalues;
    eigenvalues, final, turns := GramEigenvalues(matrix, tolerance, angle);
    values := eigenvalues;
    var smallest := Least(eigenvalues);
    if smallest <= 0.0 {
      ZeroValueIsDependence(matrix, final, turns, values);
      return SingularDesign, values, final, turns;
    }
    var largest := Greatest(eigenvalues);
    RatioAtLeastOne(largest, smallest);
    RatioIsStretch(matrix, final, turns, values);
    return SquaredRatio(largest / smallest), values, final, turns;
  }

  lemma RatioAtLeastOne(u: real, v: real)
    requires u >= v > 0.0
    ensures u / v >= 1.0
  {
  }
}
