/** Gauss-Jordan inversion with partial pivoting
    (src/envresearch/econometrics/_valuation_diagnostics.py, lines 263-285). */
module Inversion {
  import opened Reals
  import opened Sums
  import opened Quadratic

  type Rows = seq<seq<real>>

  datatype Outcome = Inverse(rows: Rows) | SingularMatrix | DivisionByZero

  // --------------------------------------------------------------- row algebra

  function RowDot(row: seq<real>, z: Vec): real {
    Dot(|row|, Values(row), z)
  }

  ghost predicate Width(rows: Rows, w: nat) {
    forall i | 0 <= i < |rows| :: |rows[i]| == w
  }

  ghost predicate InKernel(rows: Rows, z: Vec) {
    forall i | 0 <= i < |rows| :: RowDot(rows[i], z) == 0.0
  }

  /** The rows determine the same linear relations. */
  ghost predicate SameKernel(p: Rows, q: Rows) {
    forall z: Vec :: InKernel(p, z) <==> InKernel(q, z)
  }

  function Divided(row: seq<real>, divisor: real): (r: seq<real>)
    requires divisor != 0.0
    ensures |r| == |row|
  {
    seq(|row|, i requires 0 <= i < |row| => row[i] / divisor)
  }

  function Subtracted(row: seq<real>, factor: real, pivotRow: seq<real>): (r: seq<real>)
    requires |row| == |pivotRow|
    ensures |r| == |row|
  {
    seq(|row|, i requires 0 <= i < |row| => row[i] - factor * pivotRow[i])
  }

  /** Every row other than c has its entry in column c cleared against row c. */
  function Cleared(rows: Rows, c: nat): (r: Rows)
    requires c < |rows| && c < |rows[c]| && forall i | 0 <= i < |rows| :: |rows[i]| == |rows[c]|
    ensures |r| == |rows|
  {
    seq(|rows|, i requires 0 <= i < |rows| =>
      if i == c then rows[c] else Subtracted(rows[i], rows[i][c], rows[c]))
  }

  /** Columns 0..k of the left half are the unit columns. */
  ghost predicate UnitColumns(rows: Rows, k: nat) {
    forall i, j | 0 <= i < |rows| && 0 <= j < k && j < |rows[i]| :: rows[i][j] == Unit(j)(i)
  }

  lemma SelfQuotient(d: real)
    requires d != 0.0
    ensures d / d == 1.0
  {
  }

  lemma DividedDot(row: seq<real>, d: real, z: Vec)
    requires d != 0.0
    ensures RowDot(Divided(row, d), z) == RowDot(row, z) / d
  {
    var q := 1.0 / d;
    forall i | 0 <= i < |row| ensures Values(Divided(row, d))(i) == q * Values(row)(i) + 0.0 * Values(row)(i) {
      assert row[i] / d == q * row[i];
    }
    DotLinear(0, |row|, q, Values(row), 0.0, Values(row), Values(Divided(row, d)), z);
    hide Dot;
    assert q * RowDot(row, z) == RowDot(row, z) / d;
  }

  lemma SubtractedDot(row: seq<real>, f: real, pivotRow: seq<real>, z: Vec)
    requires |row| == |pivotRow|
    ensures RowDot(Subtracted(row, f, pivotRow), z) == RowDot(row, z) - f * RowDot(pivotRow, z)
  {
    var r := Subtracted(row, f, pivotRow);
    forall i | 0 <= i < |row| ensures Values(r)(i) == 1.0 * Values(row)(i) + (-f) * Values(pivotRow)(i) {
      assert r[i] == row[i] - f * pivotRow[i];
    }
    DotLinear(0, |row|, 1.0, Values(row), -f, Values(pivotRow), Values(r), z);
  }

  lemma SwapKeepsKernel(rows: Rows, i: nat, j: nat)
    requires i < |rows| && j < |rows|
    ensures SameKernel(rows, rows[i := rows[j]][j := rows[i]])
  {
    hide RowDot;
    var swapped := rows[i := rows[j]][j := rows[i]];
    forall z: Vec ensures InKernel(rows, z) <==> InKernel(swapped, z) {
      if InKernel(swapped, z) {
        forall k | 0 <= k < |rows| ensures RowDot(rows[k], z) == 0.0 {
          assert rows[k] == swapped[if k == i then j else if k == j then i else k];
        }
      }
    }
  }

  lemma DivideKeepsKernel(rows: Rows, c: nat, d: real)
    requires c < |rows| && d != 0.0
    ensures SameKernel(rows, rows[c := Divided(rows[c], d)])
  {
    hide RowDot;
    var scaled := rows[c := Divided(rows[c], d)];
    forall z: Vec ensures InKernel(rows, z) <==> InKernel(scaled, z) {
      DividedDot(rows[c], d, z);
      assert RowDot(scaled[c], z) == 0.0 <==> RowDot(rows[c], z) == 0.0;
      forall k | 0 <= k < |rows| ensures RowDot(rows[k], z) == 0.0 <==> RowDot(scaled[k], z) == 0.0 {
      }
    }
  }

  lemma ClearKeepsKernel(rows: Rows, c: nat)
    requires c < |rows| && c < |rows[c]| && Width(rows, |rows[c]|)
    ensures SameKernel(rows, Cleared(rows, c))
  {
    hide RowDot, Subtracted;
    var cleared := Cleared(rows, c);
    forall z: Vec ensures InKernel(rows, z) <==> InKernel(cleared, z) {
      forall k | 0 <= k < |rows| && k != c
        ensures RowDot(cleared[k], z) == RowDot(rows[k], z) - rows[k][c] * RowDot(rows[c], z)
      {
        SubtractedDot(rows[k], rows[k][c], rows[c], z);
      }
      assert cleared[c] == rows[c];
      if InKernel(cleared, z) {
        assert RowDot(cleared[c], z) == 0.0;
      }
    }
  }

  lemma ClearUnitColumns(rows: Rows, c: nat)
    requires c < |rows| && c < |rows[c]| && Width(rows, |rows[c]|)
    requires UnitColumns(rows, c) && rows[c][c] == 1.0
    ensures UnitColumns(Cleared(rows, c), c + 1)
  {
    var cleared := Cleared(rows, c);
    forall i, j | 0 <= i < |rows| && 0 <= j <= c ensures cleared[i][j] == Unit(j)(i) {
      if i != c {
        assert cleared[i][j] == rows[i][j] - rows[i][c] * rows[c][j];
      }
    }
  }

  // ------------------------------------------- what the augmented kernel means

  function UnitRow(n: nat, p: int): (r: seq<real>)
    ensures |r| == n
  {
    seq(n, j requires 0 <= j < n => Unit(p)(j))
  }

  /** [ A | I ]. */
  function Augmented(matrix: Rows): (r: Rows)
    ensures |r| == |matrix|
  {
    seq(|matrix|, i requires 0 <= i < |matrix| => matrix[i] + UnitRow(|matrix|, i))
  }

  /** The vector x followed by y. */
  function Join(n: nat, x: Vec, y: Vec): Vec {
    i => if i < n then x(i) else y(i - n)
  }

  lemma {:induction false} SumJoin(n: nat, m: nat, lo: int, f: Vec, g: Vec)
    requires 0 <= lo <= n
    ensures Sum(lo, n + m, Join(n, f, g)) == Sum(lo, n, f) + Sum(0, m, g)
    decreases n - lo
  {
    if lo < n {
      SumJoin(n, m, lo + 1, f, g);
    } else {
      SumShift(n, m, 0, f, g);
    }
  }

  lemma {:induction false} SumShift(n: nat, m: nat, k: nat, f: Vec, g: Vec)
    requires k <= m
    ensures Sum(n + k, n + m, Join(n, f, g)) == Sum(k, m, g)
    decreases m - k
  {
    if k < m {
      SumShift(n, m, k + 1, f, g);
    }
  }

  /** A row of two halves against a vector of two halves. */
  lemma HalvesDot(u: seq<real>, v: seq<real>, x: Vec, y: Vec)
    ensures RowDot(u + v, Join(|u|, x, y)) == Dot(|u|, Values(u), x) + Dot(|v|, Values(v), y)
  {
    var n, m := |u|, |v|;
    var f, g := Times(Values(u), x), Times(Values(v), y);
    forall i | 0 <= i < n + m
      ensures Times(Values(u + v), Join(n, x, y))(i) == Join(n, f, g)(i)
    {
    }
    SumCongruence(0, n + m, Times(Values(u + v), Join(n, x, y)), Join(n, f, g));
    SumJoin(n, m, 0, f, g);
  }

  lemma AugmentedKernel(matrix: Rows, x: Vec, y: Vec)
    requires IsSquare(matrix)
    ensures InKernel(Augmented(matrix), Join(|matrix|, x, y))
       <==> forall i | 0 <= i < |matrix| :: Dot(|matrix|, Values(matrix[i]), x) + y(i) == 0.0
  {
    var n := |matrix|;
    forall i | 0 <= i < n
      ensures RowDot(Augmented(matrix)[i], Join(n, x, y)) == Dot(n, Values(matrix[i]), x) + y(i)
    {
      HalvesDot(matrix[i], UnitRow(n, i), x, y);
      UnitRowDot(n, i, y);
    }
    hide RowDot, Dot;
  }

  lemma UnitRowDot(n: nat, p: nat, y: Vec)
    requires p < n
    ensures Dot(n, Values(UnitRow(n, p)), y) == y(p)
  {
    DotCongruence(n, Values(UnitRow(n, p)), y, Unit(p), y);
    DotUnit(n, y, p);
  }

  function RightHalves(rows: Rows, n: nat): Rows
    requires forall i | 0 <= i < |rows| :: |rows[i]| == 2 * n
  {
    seq(|rows|, i requires 0 <= i < |rows| => rows[i][n..])
  }

  /** Once the left half is I, the kernel says x + R y = 0. */
  lemma ReducedKernel(rows: Rows, n: nat, x: Vec, y: Vec)
    requires |rows| == n && Width(rows, 2 * n) && UnitColumns(rows, n)
    ensures InKernel(rows, Join(n, x, y))
       <==> forall i | 0 <= i < n :: x(i) + Dot(n, Values(RightHalves(rows, n)[i]), y) == 0.0
  {
    forall i | 0 <= i < n
      ensures RowDot(rows[i], Join(n, x, y)) == x(i) + Dot(n, Values(RightHalves(rows, n)[i]), y)
    {
      assert rows[i] == rows[i][..n] + rows[i][n..];
      forall j | 0 <= j < n ensures rows[i][..n][j] == UnitRow(n, i)[j] {
        assert rows[i][j] == Unit(j)(i);
      }
      assert rows[i][..n] == UnitRow(n, i);
      HalvesDot(UnitRow(n, i), rows[i][n..], x, y);
      UnitRowDot(n, i, x);
    }
    hide RowDot, Dot;
  }

  // --------------------------------------------------------- inverse, singular

  /** R A = I and A R = I, entry by entry. */
  ghost predicate AreInverse(n: nat, r: Mat, a: Mat) {
    forall i, j | 0 <= i < n && 0 <= j < n ::
      Dot(n, Row(r, i), Column(a, j)) == Unit(j)(i) && Dot(n, Row(a, i), Column(r, j)) == Unit(j)(i)
  }

  /** Some nonzero vector is mapped to zero. */
  ghost predicate Singular(n: nat, a: Mat) {
    exists x: Vec, p: nat :: p < n && x(p) != 0.0 && MapsToZero(n, a, x)
  }

  ghost predicate MapsToZero(n: nat, a: Mat, x: Vec) {
    forall i | 0 <= i < n :: Apply(n, a, x)(i) == 0.0
  }

  function Negated(x: Vec): Vec {
    i => -x(i)
  }

  lemma DotNegated(n: nat, u: Vec, x: Vec)
    ensures Dot(n, u, Negated(x)) == -Dot(n, u, x)
  {
    SumScale(0, n, -1.0, Times(u, x), Times(u, Negated(x)));
  }

  /** The reduced rows hold a two-sided inverse. */
  lemma ReducedIsInverse(matrix: Rows, rows: Rows)
    requires IsSquare(matrix) && |rows| == |matrix| && Width(rows, 2 * |matrix|)
    requires UnitColumns(rows, |matrix|) && SameKernel(Augmented(matrix), rows)
    ensures AreInverse(|matrix|, Entries(RightHalves(rows, |matrix|)), Entries(matrix))
  {
    var n, right := |matrix|, RightHalves(rows, |matrix|);
    var r, a := Entries(right), Entries(matrix);
    forall i, j | 0 <= i < n && 0 <= j < n
      ensures Dot(n, Row(r, i), Column(a, j)) == Unit(j)(i)
      ensures Dot(n, Row(a, i), Column(r, j)) == Unit(j)(i)
    {
      LeftInverseEntry(matrix, rows, i, j);
      RightInverseEntry(matrix, rows, i, j);
    }
  }

  lemma RowValues(rows: Rows, n: nat, i: nat, x: Vec)
    requires i < |rows| == n && |rows[i]| == n
    ensures Dot(n, Values(rows[i]), x) == Dot(n, Row(Entries(rows), i), x)
  {
    DotCongruence(n, Values(rows[i]), x, Row(Entries(rows), i), x);
  }

  lemma ColumnOfUnit(rows: Rows, n: nat, i: nat, j: nat)
    requires i < |rows| == n && |rows[i]| == n && j < n
    ensures Dot(n, Values(rows[i]), Unit(j)) == rows[i][j]
  {
    DotUnit(n, Values(rows[i]), j);
  }

  lemma LeftInverseEntry(matrix: Rows, rows: Rows, i: nat, j: nat)
    requires IsSquare(matrix) && |rows| == |matrix| && Width(rows, 2 * |matrix|)
    requires UnitColumns(rows, |matrix|) && SameKernel(Augmented(matrix), rows)
    requires i < |matrix| && j < |matrix|
    ensures var n, right := |matrix|, RightHalves(rows, |matrix|);
            Dot(n, Row(Entries(right), i), Column(Entries(matrix), j)) == Unit(j)(i)
  {
    hide DotFrom, UnitColumns, SameKernel, InKernel;
    var n, right := |matrix|, RightHalves(rows, |matrix|);
    var x, y := Unit(j), Negated(Column(Entries(matrix), j));
    forall k | 0 <= k < n ensures Dot(n, Values(matrix[k]), x) + y(k) == 0.0 {
      ColumnOfUnit(matrix, n, k, j);
    }
    AugmentedKernel(matrix, x, y);
    SameKernelAt(Augmented(matrix), rows, Join(n, x, y));
    ReducedKernel(rows, n, x, y);
    DotNegated(n, Values(right[i]), Column(Entries(matrix), j));
    RowValues(right, n, i, Column(Entries(matrix), j));
  }

  lemma SameKernelAt(p: Rows, q: Rows, z: Vec)
    requires SameKernel(p, q)
    ensures InKernel(p, z) <==> InKernel(q, z)
  {
  }

  lemma RightInverseEntry(matrix: Rows, rows: Rows, i: nat, j: nat)
    requires IsSquare(matrix) && |rows| == |matrix| && Width(rows, 2 * |matrix|)
    requires UnitColumns(rows, |matrix|) && SameKernel(Augmented(matrix), rows)
    requires i < |matrix| && j < |matrix|
    ensures var n, right := |matrix|, RightHalves(rows, |matrix|);
            Dot(n, Row(Entries(matrix), i), Column(Entries(right), j)) == Unit(j)(i)
  {
    hide DotFrom, UnitColumns, SameKernel, InKernel;
    var n, right := |matrix|, RightHalves(rows, |matrix|);
    var x, y := Column(Entries(right), j), Negated(Unit(j));
    forall k | 0 <= k < n ensures x(k) + Dot(n, Values(right[k]), y) == 0.0 {
      DotNegated(n, Values(right[k]), Unit(j));
      ColumnOfUnit(right, n, k, j);
    }
    ReducedKernel(rows, n, x, y);
    SameKernelAt(Augmented(matrix), rows, Join(n, x, y));
    AugmentedKernel(matrix, x, y);
    RowValues(matrix, n, i, x);
  }

  /** A zero column below the reduced part exposes a vector that A maps to zero. */
  lemma ZeroPivotsSingular(matrix: Rows, rows: Rows, k: nat)
    requires IsSquare(matrix) && |rows| == |matrix| && k < |matrix| && Width(rows, 2 * |matrix|)
    requires UnitColumns(rows, k) && SameKernel(Augmented(matrix), rows)
    requires forall i | k <= i < |matrix| :: rows[i][k] == 0.0
    ensures Singular(|matrix|, Entries(matrix))
  {
    hide DotFrom, UnitColumns, SameKernel, InKernel;
    var n := |matrix|;
    var x: Vec := i => if i == k then 1.0 else if 0 <= i < k then -rows[i][k] else 0.0;
    var y: Vec := i => 0.0;
    ZeroPivotKernel(rows, n, k, x, y);
    SameKernelAt(Augmented(matrix), rows, Join(n, x, y));
    AugmentedKernel(matrix, x, y);
    forall i | 0 <= i < n ensures Apply(n, Entries(matrix), x)(i) == 0.0 {
      RowValues(matrix, n, i, x);
    }
    assert MapsToZero(n, Entries(matrix), x);
    assert x(k) != 0.0;
  }

  lemma ZeroPivotKernel(rows: Rows, n: nat, k: nat, x: Vec, y: Vec)
    requires |rows| == n && k < n && Width(rows, 2 * n) && UnitColumns(rows, k)
    requires forall i | k <= i < n :: rows[i][k] == 0.0
    requires x(k) == 1.0 && (forall i | 0 <= i < k :: x(i) == -rows[i][k]) && (forall i | k < i < n :: x(i) == 0.0)
    requires forall i | 0 <= i < n :: y(i) == 0.0
    ensures InKernel(rows, Join(n, x, y))
  {
    forall i | 0 <= i < n ensures RowDot(rows[i], Join(n, x, y)) == 0.0 {
      var f := Times(Values(rows[i]), Join(n, x, y));
      var zero: Vec := j => 0.0;
      SumConstantZero(2 * n, zero);
      forall j | 0 <= j < 2 * n && j != k && j != i ensures f(j) == 0.0 {
        if j < k {
          assert rows[i][j] == Unit(j)(i) == 0.0;
        }
      }
      if i < k {
        assert rows[i][i] == Unit(i)(i) == 1.0;
        SumDifferTwo(0, 2 * n, i, k, f, zero);
      } else {
        assert f(i) == 0.0;
        SumSingle(0, 2 * n, k, f);
      }
    }
  }

  // ------------------------------------------------------ pivots that are too small

  /** Rows not yet used as pivots still carry, untouched, the unit column of the
      original row they came from. */
  ghost predicate Untouched(rows: Rows, n: nat, k: nat, origin: seq<nat>) {
    && |origin| == |rows| == n && Width(rows, 2 * n)
    && (forall i | k <= i < n :: origin[i] < n)
    && forall i, p | k <= i < n && 0 <= p < n :: rows[p][n + origin[i]] == Unit(i)(p)
  }

  function Swapped<T>(s: seq<T>, i: nat, j: nat): seq<T>
    requires i < |s| && j < |s|
  {
    s[i := s[j]][j := s[i]]
  }

  lemma SwapKeepsUntouched(rows: Rows, n: nat, c: nat, pivot: nat, origin: seq<nat>)
    requires Untouched(rows, n, c, origin) && c <= pivot < n
    ensures Untouched(Swapped(rows, c, pivot), n, c, Swapped(origin, c, pivot))
  {
    var after, from := Swapped(rows, c, pivot), Swapped(origin, c, pivot);
    forall i, p | c <= i < n && 0 <= p < n ensures from[i] < n && after[p][n + from[i]] == Unit(i)(p) {
      var was := if i == c then pivot else if i == pivot then c else i;
      var row := if p == c then pivot else if p == pivot then c else p;
      assert rows[row][n + origin[was]] == Unit(was)(row);
    }
  }

  lemma DivideKeepsUntouched(rows: Rows, n: nat, c: nat, d: real, origin: seq<nat>)
    requires Untouched(rows, n, c, origin) && c < n && d != 0.0
    ensures Untouched(rows[c := Divided(rows[c], d)], n, c + 1, origin)
  {
    var after := rows[c := Divided(rows[c], d)];
    forall i, p | c + 1 <= i < n && 0 <= p < n ensures after[p][n + origin[i]] == Unit(i)(p) {
      assert rows[p][n + origin[i]] == Unit(i)(p);
      if p == c {
        assert after[c][n + origin[i]] == 0.0 / d == 0.0;
      }
    }
  }

  lemma ClearKeepsUntouched(rows: Rows, n: nat, c: nat, origin: seq<nat>)
    requires Untouched(rows, n, c + 1, origin) && c < n
    ensures Untouched(Cleared(rows, c), n, c + 1, origin)
  {
    var after := Cleared(rows, c);
    forall i, p | c + 1 <= i < n && 0 <= p < n ensures after[p][n + origin[i]] == Unit(i)(p) {
      assert rows[p][n + origin[i]] == Unit(i)(p) && rows[c][n + origin[i]] == Unit(i)(c) == 0.0;
      if p != c {
        assert after[p][n + origin[i]] == rows[p][n + origin[i]] - rows[p][c] * 0.0;
      }
    }
  }

  function InOrder(n: nat): (r: seq<nat>)
    ensures |r| == n && forall i | 0 <= i < n :: r[i] == i
  {
    if n == 0 then [] else InOrder(n - 1) + [n - 1]
  }

  lemma AugmentedUntouched(matrix: Rows)
    requires IsSquare(matrix)
    ensures Untouched(Augmented(matrix), |matrix|, 0, InOrder(|matrix|))
  {
    hide InOrder;
    var n, rows, origin := |matrix|, Augmented(matrix), InOrder(|matrix|);
    forall p | 0 <= p < n ensures |rows[p]| == 2 * n && forall i | 0 <= i < n :: rows[p][n + i] == Unit(i)(p) {
      AugmentedRow(matrix, p);
    }
    forall i, p | 0 <= i < n && 0 <= p < n ensures rows[p][n + origin[i]] == Unit(i)(p) {
      assert rows[p][n + i] == Unit(i)(p);
    }
  }

  lemma AugmentedRow(matrix: Rows, p: nat)
    requires IsSquare(matrix) && p < |matrix|
    ensures var n, row := |matrix|, Augmented(matrix)[p];
            |row| == 2 * n && forall i | 0 <= i < n :: row[n + i] == Unit(i)(p)
  {
    var n, row := |matrix|, Augmented(matrix)[p];
    assert row == matrix[p] + UnitRow(n, p);
    forall i | 0 <= i < n ensures row[n + i] == Unit(i)(p) {
      assert row[n + i] == UnitRow(n, p)[i] == Unit(p)(i);
    }
  }

  /** The row, from k on, that came from the original row j; none is -1. */
  ghost function Slot(origin: seq<nat>, k: nat, j: int): int {
    if i :| k <= i < |origin| && origin[i] == j then i else -1
  }

  lemma SlotOf(rows: Rows, n: nat, k: nat, origin: seq<nat>, p: nat)
    requires Untouched(rows, n, k, origin) && k <= p < n
    ensures Slot(origin, k, origin[p]) == p
  {
    var i := Slot(origin, k, origin[p]);
    assert rows[p][n + origin[i]] == Unit(i)(p) && rows[p][n + origin[p]] == Unit(p)(p);
  }

  /** Some vector with an entry 1 is mapped below the threshold in every coordinate. */
  ghost predicate NearlySingular(n: nat, a: Mat, threshold: real) {
    exists x: Vec, p: nat :: p < n && x(p) == 1.0 && MapsBelow(n, a, x, threshold)
  }

  ghost predicate MapsBelow(n: nat, a: Mat, x: Vec, threshold: real) {
    forall i | 0 <= i < n :: Abs(Apply(n, a, x)(i)) < threshold
  }

  /** The vector that the column of small pivots exhibits, and its opposite image. */
  ghost function Exhibited(rows: Rows, k: nat): Vec
    requires k < |rows| && forall i | 0 <= i < |rows| :: k < |rows[i]|
  {
    i => if i == k then 1.0 else if 0 <= i < k then -rows[i][k] else 0.0
  }

  ghost function ExhibitedImage(rows: Rows, k: nat, origin: seq<nat>): Vec
    requires k < |rows| == |origin| && forall i | 0 <= i < |rows| :: k < |rows[i]|
  {
    j => if Slot(origin, k, j) >= 0 then -rows[Slot(origin, k, j)][k] else 0.0
  }

  lemma ExhibitedTerms(rows: Rows, n: nat, k: nat, origin: seq<nat>, p: nat)
    requires Untouched(rows, n, k, origin) && UnitColumns(rows, k) && k < n && p < n
    ensures var f := Times(Values(rows[p]), Join(n, Exhibited(rows, k), ExhibitedImage(rows, k, origin)));
            var other := if p < k then p else n + origin[p];
            && f(k) == rows[p][k] && f(other) == -rows[p][k]
            && forall j | 0 <= j < 2 * n && j != k && j != other :: f(j) == 0.0
  {
    var x, y := Exhibited(rows, k), ExhibitedImage(rows, k, origin);
    var f := Times(Values(rows[p]), Join(n, x, y));
    var other := if p < k then p else n + origin[p];
    if p < k {
      assert rows[p][p] == Unit(p)(p) == 1.0;
    } else {
      assert rows[p][n + origin[p]] == Unit(p)(p) == 1.0;
      SlotOf(rows, n, k, origin, p);
    }
    forall j | 0 <= j < 2 * n && j != k && j != other ensures f(j) == 0.0 {
      if j < k {
        assert rows[p][j] == Unit(j)(p);
      } else if j >= n && Slot(origin, k, j - n) >= 0 {
        var i := Slot(origin, k, j - n);
        assert rows[p][n + origin[i]] == Unit(i)(p);
      }
    }
  }

  lemma ExhibitedInKernel(rows: Rows, n: nat, k: nat, origin: seq<nat>)
    requires Untouched(rows, n, k, origin) && UnitColumns(rows, k) && k < n
    ensures InKernel(rows, Join(n, Exhibited(rows, k), ExhibitedImage(rows, k, origin)))
  {
    hide UnitColumns, Exhibited, ExhibitedImage, Join;
    var z := Join(n, Exhibited(rows, k), ExhibitedImage(rows, k, origin));
    forall p | 0 <= p < n ensures RowDot(rows[p], z) == 0.0 {
      var f := Times(Values(rows[p]), z);
      var zero: Vec := j => 0.0;
      ExhibitedTerms(rows, n, k, origin, p);
      SumConstantZero(2 * n, zero);
      SumDifferTwo(0, 2 * n, k, if p < k then p else n + origin[p], f, zero);
    }
  }

  /** A column without a pivot of the threshold's size exposes a vector that A maps
      below the threshold. */
  lemma SmallPivotsNearlySingular(matrix: Rows, rows: Rows, k: nat, origin: seq<nat>, threshold: real)
    requires IsSquare(matrix) && |rows| == |matrix| && k < |matrix|
    requires UnitColumns(rows, k) && SameKernel(Augmented(matrix), rows) && Untouched(rows, |matrix|, k, origin)
    requires forall i | k <= i < |matrix| :: Abs(rows[i][k]) < threshold
    ensures NearlySingular(|matrix|, Entries(matrix), threshold)
  {
    hide DotFrom, UnitColumns, SameKernel, InKernel, Join;
    var n, a := |matrix|, Entries(matrix);
    var x, y := Exhibited(rows, k), ExhibitedImage(rows, k, origin);
    ExhibitedInKernel(rows, n, k, origin);
    SameKernelAt(Augmented(matrix), rows, Join(n, x, y));
    AugmentedKernel(matrix, x, y);
    assert 0.0 <= Abs(rows[k][k]) < threshold;
    forall i | 0 <= i < n ensures Abs(Apply(n, a, x)(i)) < threshold {
      RowValues(matrix, n, i, x);
      assert Dot(n, Values(matrix[i]), x) + y(i) == 0.0;
      assert Abs(y(i)) < threshold;
    }
    assert MapsBelow(n, a, x, threshold);
    assert x(k) == 1.0;
  }

  /** A matrix that reduces fully maps no nonzero vector to zero. */
  lemma InverseMeansNonsingular(matrix: Rows, rows: Rows)
    requires IsSquare(matrix) && |rows| == |matrix| && Width(rows, 2 * |matrix|)
    requires UnitColumns(rows, |matrix|) && SameKernel(Augmented(matrix), rows)
    ensures !Singular(|matrix|, Entries(matrix))
  {
    hide DotFrom, UnitColumns, SameKernel, InKernel;
    var n, a := |matrix|, Entries(matrix);
    var y: Vec := i => 0.0;
    forall x: Vec, p: nat | p < n && MapsToZero(n, a, x) ensures x(p) == 0.0 {
      forall i | 0 <= i < n ensures Dot(n, Values(matrix[i]), x) + y(i) == 0.0 {
        RowValues(matrix, n, i, x);
        assert Apply(n, a, x)(i) == 0.0;
      }
      AugmentedKernel(matrix, x, y);
      SameKernelAt(Augmented(matrix), rows, Join(n, x, y));
      ReducedKernel(rows, n, x, y);
      ZeroDot(n, Values(RightHalves(rows, n)[p]), y);
    }
  }

  lemma ZeroDot(n: nat, u: Vec, y: Vec)
    requires forall i | 0 <= i < n :: y(i) == 0.0
    ensures Dot(n, u, y) == 0.0
  {
    SumConstantZero(n, Times(u, y));
  }

  // -------------------------------------------------------------- the algorithm

  /** The first row of column c, from row c on, with the largest absolute entry. */
  method PivotRow(augmented: array<seq<real>>, c: nat) returns (pivot: nat)
    requires c < augmented.Length && forall i | 0 <= i < augmented.Length :: c < |augmented[i]|
    ensures c <= pivot < augmented.Length
    ensures forall i | c <= i < augmented.Length :: Abs(augmented[i][c]) <= Abs(augmented[pivot][c])
    ensures forall i | c <= i < pivot :: Abs(augmented[i][c]) < Abs(augmented[pivot][c])
  {
    pivot := c;
    for row := c + 1 to augmented.Length
      invariant c <= pivot < row
      invariant forall i | c <= i < row :: Abs(augmented[i][c]) <= Abs(augmented[pivot][c])
      invariant forall i | c <= i < pivot :: Abs(augmented[i][c]) < Abs(augmented[pivot][c])
    {
      if Abs(augmented[row][c]) > Abs(augmented[pivot][c]) {
        pivot := row;
      }
    }
  }

  /** The loop over the other rows. */
  method ClearColumn(augmented: array<seq<real>>, c: nat)
    requires c < augmented.Length && c < |augmented[c]| && Width(augmented[..], |augmented[c]|)
    modifies augmented
    ensures augmented[..] == Cleared(old(augmented[..]), c)
  {
    ghost var before := augmented[..];
    for row := 0 to augmented.Length
      invariant forall i | 0 <= i < row :: augmented[i] == Cleared(before, c)[i]
      invariant forall i | row <= i < augmented.Length :: augmented[i] == before[i]
    {
      if row != c {
        assert augmented[c] == before[c];
        var factor := augmented[row][c];
        augmented[row] := Subtracted(augmented[row], factor, augmented[c]);
      }
    }
  }

  /** One column of the elimination, once a usable pivot row is known. */
  method ReduceColumn(augmented: array<seq<real>>, c: nat, pivot: nat, ghost origin: seq<nat>)
    returns (ghost moved: seq<nat>)
    requires c <= pivot < augmented.Length && Untouched(augmented[..], augmented.Length, c, origin)
    requires UnitColumns(augmented[..], c) && augmented[pivot][c] != 0.0
    modifies augmented
    ensures Untouched(augmented[..], augmented.Length, c + 1, moved) && UnitColumns(augmented[..], c + 1)
    ensures SameKernel(old(augmented[..]), augmented[..])
  {
    hide Untouched, SameKernel;
    ghost var n := augmented.Length;
    ghost var rows := augmented[..];
    UntouchedShape(rows, n, c, origin);
    moved := Swapped(origin, c, pivot);
    SwapKeepsKernel(rows, c, pivot);
    SwapKeepsUntouched(rows, n, c, pivot, origin);
    augmented[c], augmented[pivot] := augmented[pivot], augmented[c];
    ghost var swapped := augmented[..];
    assert swapped == rows[c := rows[pivot]][pivot := rows[c]] == Swapped(rows, c, pivot);
    UntouchedShape(swapped, n, c, moved);
    var divisor := augmented[c][c];
    DivideKeepsKernel(swapped, c, divisor);
    DivideKeepsUntouched(swapped, n, c, divisor, moved);
    augmented[c] := Divided(augmented[c], divisor);
    ghost var scaled := augmented[..];
    assert scaled == swapped[c := Divided(swapped[c], divisor)];
    assert UnitColumns(scaled, c) by {
      forall i, j | 0 <= i < |scaled| && 0 <= j < c ensures scaled[i][j] == Unit(j)(i) {
        assert swapped[i][j] == rows[if i == c then pivot else if i == pivot then c else i][j];
      }
    }
    assert scaled[c][c] == 1.0 by {
      assert swapped[c][c] == divisor;
      SelfQuotient(divisor);
    }
    UntouchedShape(scaled, n, c + 1, moved);
    ClearKeepsKernel(scaled, c);
    ClearKeepsUntouched(scaled, n, c, moved);
    ClearUnitColumns(scaled, c);
    ClearColumn(augmented, c);
    KernelChain(rows, swapped, scaled, augmented[..]);
  }

  lemma UntouchedShape(rows: Rows, n: nat, k: nat, origin: seq<nat>)
    requires Untouched(rows, n, k, origin)
    ensures |rows| == |origin| == n && Width(rows, 2 * n)
  {
  }

  lemma KernelChain(p: Rows, q: Rows, r: Rows, s: Rows)
    requires SameKernel(p, q) && SameKernel(q, r) && SameKernel(r, s)
    ensures SameKernel(p, s)
  {
  }

  /** The source's inversion, for any pivot threshold; the source fixes 1e-12. */
  method Invert(matrix: Rows, threshold: real) returns (r: Outcome)
    requires IsSquare(matrix) && threshold >= 0.0
    ensures r.Inverse? ==> |r.rows| == |matrix| && IsSquare(r.rows)
    ensures r.Inverse? ==> AreInverse(|matrix|, Entries(r.rows), Entries(matrix))
    ensures r.Inverse? ==> !Singular(|matrix|, Entries(matrix))
    ensures threshold == 0.0 ==> (r.Inverse? <==> !Singular(|matrix|, Entries(matrix)))
    ensures r.SingularMatrix? ==> threshold > 0.0 && NearlySingular(|matrix|, Entries(matrix), threshold)
    ensures r.DivisionByZero? ==> threshold == 0.0
  {
    var n := |matrix|;
    var augmented := new seq<real>[n](i requires 0 <= i < n => matrix[i] + UnitRow(n, i));
    assert augmented[..] == Augmented(matrix);
    ghost var origin := InOrder(n);
    AugmentedUntouched(matrix);
    for c := 0 to n
      invariant Untouched(augmented[..], n, c, origin) && UnitColumns(augmented[..], c)
      invariant SameKernel(Augmented(matrix), augmented[..])
    {
      var pivot := PivotRow(augmented, c);
      if Abs(augmented[pivot][c]) < threshold {
        SmallPivotsNearlySingular(matrix, augmented[..], c, origin, threshold);
        return SingularMatrix;
      }
      if augmented[pivot][c] == 0.0 {
        ZeroPivotsSingular(matrix, augmented[..], c);
        return DivisionByZero;
      }
      origin := ReduceColumn(augmented, c, pivot, origin);
    }
    ReducedIsInverse(matrix, augmented[..]);
    InverseMeansNonsingular(matrix, augmented[..]);
    r := Inverse(RightHalves(augmented[..], n));
  }
}
