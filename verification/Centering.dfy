/** The varying columns of a design, less their means, and what is left of a
    combination of columns around any intercept
    (src/envresearch/econometrics/_valuation_diagnostics.py lines 235-258). */
module Centering {
  import opened Reals
  import opened Sums
  import opened Quadratic
  import opened Spectra
  import opened Extremes
  import opened ConditionNumber

  // -------------------------------------------------------------- varying columns

  function ColumnValues(matrix: seq<seq<real>>, c: nat): seq<real> {
    seq(|matrix|, i requires 0 <= i < |matrix| => Values(matrix[i])(c))
  }

  predicate VaryingColumn(matrix: seq<seq<real>>, c: nat)
    requires matrix != []
  {
    Greatest(ColumnValues(matrix, c)) != Least(ColumnValues(matrix, c))
  }

  /** The indices below n of columns that are not constant. */
  function Varying(matrix: seq<seq<real>>, n: nat): (r: seq<nat>)
    requires matrix != []
    ensures forall i | 0 <= i < |r| :: VaryingColumn(matrix, r[i])
  {
    if n == 0 then [] else Varying(matrix, n - 1) + (if VaryingColumn(matrix, n - 1) then [n - 1] else [])
  }

  function Total(values: seq<real>): real {
    if values == [] then 0.0 else values[0] + Total(values[1..])
  }

  function Mean(matrix: seq<seq<real>>, c: nat): real
    requires matrix != []
  {
    Total(ColumnValues(matrix, c)) / (|matrix| as real)
  }

  /** The varying columns, less their means. */
  function CenteredRow(row: seq<real>, columns: seq<nat>, means: seq<real>): seq<real>
    requires |means| == |columns|
  {
    seq(|columns|, i requires 0 <= i < |columns| => Values(row)(columns[i]) - means[i])
  }

  function Centered(rows: seq<seq<real>>, columns: seq<nat>, means: seq<real>): (r: seq<seq<real>>)
    requires |means| == |columns|
    ensures |r| == |rows| && forall i | 0 <= i < |rows| :: r[i] == CenteredRow(rows[i], columns, means)
  {
    if rows == [] then [] else [CenteredRow(rows[0], columns, means)] + Centered(rows[1..], columns, means)
  }

  function Means(matrix: seq<seq<real>>, columns: seq<nat>): seq<real>
    requires matrix != []
  {
    seq(|columns|, i requires 0 <= i < |columns| => Mean(matrix, columns[i]))
  }

  /** The centered varying columns of a design. */
  function CenteredDesign(matrix: seq<seq<real>>, columns: seq<nat>): (r: seq<seq<real>>)
    requires matrix != []
  {
    Centered(matrix, columns, Means(matrix, columns))
  }

  lemma {:induction false} GramDiagonal(rows: seq<seq<real>>, c: int)
    ensures GramEntry(rows, c, c) >= 0.0
    ensures (exists p | 0 <= p < |rows| :: Values(rows[p])(c) != 0.0) ==> GramEntry(rows, c, c) > 0.0
  {
    if rows != [] {
      GramDiagonal(rows[1..], c);
      SquareNonnegative(Values(rows[0])(c));
      assert forall i | 0 < i < |rows| :: rows[i] == rows[1..][i - 1];
    }
  }

  /** A varying column keeps a positive sum of squares around its mean. */
  lemma CenteredSpread(matrix: seq<seq<real>>, columns: seq<nat>, i: nat)
    requires matrix != [] && i < |columns| && VaryingColumn(matrix, columns[i])
    ensures GramEntry(CenteredDesign(matrix, columns), i, i) > 0.0
    ensures |matrix| >= 2
  {
    var values := ColumnValues(matrix, columns[i]);
    var centered, mean := CenteredDesign(matrix, columns), Mean(matrix, columns[i]);
    var p :| 0 <= p < |values| && values[p] == Greatest(values);
    var q :| 0 <= q < |values| && values[q] == Least(values);
    var s := if values[p] != mean then p else q;
    assert Values(centered[s])(i) == values[s] - mean;
    GramDiagonal(centered, i);
  }

  /** The columns that take two different values, each once and in order. */
  ghost predicate ListsVarying(matrix: seq<seq<real>>, width: nat, columns: seq<nat>) {
    && (forall i, j | 0 <= i < j < |columns| :: columns[i] < columns[j])
    && forall c: nat :: c in columns <==> c < width && TakesTwoValues(matrix, c)
  }

  predicate TakesTwoValues(matrix: seq<seq<real>>, c: nat) {
    exists i, j | 0 <= i < |matrix| && 0 <= j < |matrix| :: Values(matrix[i])(c) != Values(matrix[j])(c)
  }

  lemma VaryingTakesTwo(matrix: seq<seq<real>>, c: nat)
    requires matrix != []
    ensures VaryingColumn(matrix, c) <==> TakesTwoValues(matrix, c)
  {
    var values := ColumnValues(matrix, c);
    forall i | 0 <= i < |matrix| ensures values[i] == Values(matrix[i])(c) && values[i] in values {
    }
    var p :| 0 <= p < |values| && values[p] == Greatest(values);
    var q :| 0 <= q < |values| && values[q] == Least(values);
    assert Values(matrix[p])(c) == Greatest(values) && Values(matrix[q])(c) == Least(values);
  }

  lemma {:induction false} VaryingLists(matrix: seq<seq<real>>, n: nat)
    requires matrix != []
    ensures ListsVarying(matrix, n, Varying(matrix, n))
  {
    hide VaryingColumn, TakesTwoValues;
    if n > 0 {
      VaryingLists(matrix, n - 1);
      VaryingTakesTwo(matrix, n - 1);
      var init := Varying(matrix, n - 1);
      assert forall i | 0 <= i < |init| :: init[i] in init;
    }
  }

  // --------------------------------------------------------------------- centering

  function ColumnTotal(rows: seq<seq<real>>, c: int): real {
    if rows == [] then 0.0 else Values(rows[0])(c) + ColumnTotal(rows[1..], c)
  }

  /** Each centered column differs from its design column by one constant and sums to zero. */
  ghost predicate IsCentering(matrix: seq<seq<real>>, columns: seq<nat>, centered: seq<seq<real>>) {
    && |centered| == |matrix|
    && (forall r | 0 <= r < |centered| :: |centered[r]| == |columns|)
    && forall i | 0 <= i < |columns| :: ColumnTotal(centered, i) == 0.0 && ShiftsColumn(matrix, columns[i], centered, i)
  }

  ghost predicate ShiftsColumn(matrix: seq<seq<real>>, c: nat, centered: seq<seq<real>>, i: nat) {
    |centered| == |matrix| &&
    forall r, s | 0 <= r < |matrix| && 0 <= s < |matrix| ::
      Values(centered[r])(i) - Values(matrix[r])(c) == Values(centered[s])(i) - Values(matrix[s])(c)
  }

  lemma {:induction false} TotalIsColumnTotal(matrix: seq<seq<real>>, c: nat)
    ensures Total(ColumnValues(matrix, c)) == ColumnTotal(matrix, c)
  {
    if matrix != [] {
      TotalIsColumnTotal(matrix[1..], c);
      assert ColumnValues(matrix, c)[1..] == ColumnValues(matrix[1..], c);
    }
  }

  lemma {:induction false} CenteredTotal(rows: seq<seq<real>>, columns: seq<nat>, means: seq<real>, i: nat)
    requires |means| == |columns| && i < |columns|
    ensures ColumnTotal(Centered(rows, columns, means), i) == ColumnTotal(rows, columns[i]) - |rows| as real * means[i]
  {
    if rows != [] {
      CenteredTotal(rows[1..], columns, means, i);
      assert Centered(rows, columns, means)[1..] == Centered(rows[1..], columns, means);
      assert |rows| as real * means[i] == |rows[1..]| as real * means[i] + means[i];
    }
  }

  lemma CenteredIsCentering(matrix: seq<seq<real>>, columns: seq<nat>)
    requires matrix != []
    ensures IsCentering(matrix, columns, CenteredDesign(matrix, columns))
  {
    hide ColumnTotal, Mean;
    var centered := CenteredDesign(matrix, columns);
    forall i | 0 <= i < |columns|
      ensures ColumnTotal(centered, i) == 0.0 && ShiftsColumn(matrix, columns[i], centered, i)
    {
      CenteredToZero(matrix, columns, i);
      var mean := Mean(matrix, columns[i]);
      assert forall r | 0 <= r < |matrix| :: Values(centered[r])(i) == Values(matrix[r])(columns[i]) - mean;
    }
  }

  lemma CenteredToZero(matrix: seq<seq<real>>, columns: seq<nat>, i: nat)
    requires matrix != [] && i < |columns|
    ensures ColumnTotal(CenteredDesign(matrix, columns), i) == 0.0
  {
    hide ColumnTotal;
    CenteredTotal(matrix, columns, Means(matrix, columns), i);
    TotalIsColumnTotal(matrix, columns[i]);
    TimesQuotient(|matrix| as real, Total(ColumnValues(matrix, columns[i])));
  }

  lemma TimesQuotient(n: real, total: real)
    requires n > 0.0
    ensures n * (total / n) == total
  {
  }

  // ---------------------------------------------- residuals around an intercept

  /** The cells of one row in the given columns. */
  function Picked(row: seq<real>, columns: seq<nat>): Vec {
    i => if 0 <= i < |columns| then Values(row)(columns[i]) else 0.0
  }

  /** The combination of the columns with weights b, on one row. */
  function Fitted(row: seq<real>, columns: seq<nat>, b: Vec): real {
    Dot(|columns|, Picked(row, columns), b)
  }

  /** The squared distances of the combination from the intercept c, over all rows. */
  function SquaredResiduals(rows: seq<seq<real>>, columns: seq<nat>, b: Vec, c: real): real {
    if rows == [] then 0.0
    else Square(Fitted(rows[0], columns, b) - c) + SquaredResiduals(rows[1..], columns, b, c)
  }

  /** The sum of the images of the rows. */
  function ImageTotal(rows: seq<seq<real>>, k: nat, b: Vec): real {
    if rows == [] then 0.0 else Dot(k, Values(rows[0]), b) + ImageTotal(rows[1..], k, b)
  }

  function ColumnTotals(rows: seq<seq<real>>): Vec {
    i => ColumnTotal(rows, i)
  }

  lemma {:induction false} ImageTotalIs(rows: seq<seq<real>>, k: nat, b: Vec)
    ensures ImageTotal(rows, k, b) == Dot(k, ColumnTotals(rows), b)
  {
    hide Sum;
    if rows == [] {
      SumConstantZero(k, Times(ColumnTotals(rows), b));
    } else {
      ImageTotalIs(rows[1..], k, b);
      DotLinear(0, k, 1.0, Values(rows[0]), 1.0, ColumnTotals(rows[1..]), ColumnTotals(rows), b);
    }
  }

  /** Centered columns leave every combination with sum zero. */
  lemma CenteredImagesCancel(matrix: seq<seq<real>>, columns: seq<nat>, b: Vec)
    requires matrix != []
    ensures ImageTotal(CenteredDesign(matrix, columns), |columns|, b) == 0.0
  {
    hide Sum, ColumnTotal, CenteredDesign, ImageTotal;
    var centered := CenteredDesign(matrix, columns);
    ImageTotalIs(centered, |columns|, b);
    forall i | 0 <= i < |columns| ensures Times(ColumnTotals(centered), b)(i) == 0.0 {
      CenteredToZero(matrix, columns, i);
    }
    SumConstantZero(|columns|, Times(ColumnTotals(centered), b));
  }

  lemma FittedShifts(row: seq<real>, columns: seq<nat>, means: seq<real>, b: Vec)
    requires |means| == |columns|
    ensures Fitted(row, columns, b)
         == Dot(|columns|, Values(CenteredRow(row, columns, means)), b) + Dot(|columns|, Values(means), b)
  {
    hide Sum;
    DotLinear(0, |columns|, 1.0, Values(CenteredRow(row, columns, means)), 1.0, Values(means), Picked(row, columns), b);
  }

  /** Around the intercept c the residuals are the centered image, moved by one constant. */
  lemma {:induction false} ResidualsSplit(rows: seq<seq<real>>, columns: seq<nat>, means: seq<real>, b: Vec, c: real)
    requires |means| == |columns|
    ensures var k, centered, off := |columns|, Centered(rows, columns, means), Dot(|columns|, Values(means), b) - c;
            SquaredResiduals(rows, columns, b, c)
            == ImageSquares(centered, k, b) + 2.0 * off * ImageTotal(centered, k, b) + |rows| as real * Square(off)
  {
    hide Dot, Square, Fitted;
    if rows != [] {
      var k, centered, off := |columns|, Centered(rows, columns, means), Dot(|columns|, Values(means), b) - c;
      var rest := Centered(rows[1..], columns, means);
      ResidualsSplit(rows[1..], columns, means, b, c);
      FittedShifts(rows[0], columns, means, b);
      assert centered[1..] == rest && centered[0] == CenteredRow(rows[0], columns, means);
      var z := Dot(k, Values(centered[0]), b);
      ShiftedSquare(z, off, ImageTotal(rest, k, b), |rest| as real, |rows| as real);
    }
  }

  lemma ShiftedSquare(z: real, off: real, total: real, fewer: real, count: real)
    requires count == fewer + 1.0
    ensures Square(z + off) + 2.0 * off * total + fewer * Square(off)
         == Square(z) + 2.0 * off * (z + total) + count * Square(off)
  {
    assert Square(z + off) == Square(z) + 2.0 * off * z + Square(off);
    assert 2.0 * off * (z + total) == 2.0 * off * z + 2.0 * off * total;
  }

  /** No intercept does better than the mean, and the mean leaves the centered image. */
  lemma ResidualsLeast(matrix: seq<seq<real>>, columns: seq<nat>, b: Vec) returns (mean: real)
    requires matrix != []
    ensures forall c ::
              SquaredResiduals(matrix, columns, b, c) >= ImageSquares(CenteredDesign(matrix, columns), |columns|, b)
    ensures SquaredResiduals(matrix, columns, b, mean) == ImageSquares(CenteredDesign(matrix, columns), |columns|, b)
  {
    hide SquaredResiduals, ImageSquares, ImageTotal, Dot, Square;
    var k, means := |columns|, Means(matrix, columns);
    mean := Dot(k, Values(means), b);
    CenteredImagesCancel(matrix, columns, b);
    var least := ImageSquares(CenteredDesign(matrix, columns), k, b);
    forall c
      ensures SquaredResiduals(matrix, columns, b, c) >= least
      ensures c == mean ==> SquaredResiduals(matrix, columns, b, c) == least
    {
      ResidualsSplit(matrix, columns, means, b, c);
      SquareNonnegative(mean - c);
      NonnegativeProduct(|matrix| as real, Square(mean - c));
      VanishingTerm(mean - c, |matrix| as real, ImageTotal(CenteredDesign(matrix, columns), k, b));
    }
  }

  lemma VanishingTerm(off: real, count: real, total: real)
    ensures total == 0.0 ==> 2.0 * off * total == 0.0
    ensures off == 0.0 ==> count * Square(off) == 0.0
  {
  }

  // --------------------------------------------------- what both mean on the design

  /** The least squared distance of column p alone from an intercept. */
  ghost predicate IsLeastSpread(matrix: seq<seq<real>>, columns: seq<nat>, p: nat, total: real) {
    && (forall c :: SquaredResiduals(matrix, columns, Unit(p), c) >= total)
    && exists c :: SquaredResiduals(matrix, columns, Unit(p), c) == total
  }

  /** The factor says how much of column p the other columns and an intercept explain:
      the least squared residual of any combination with weight one on it, times the
      factor, is the column's own least squared distance from an intercept. */
  ghost predicate InflatesDesign(matrix: seq<seq<real>>, columns: seq<nat>, p: nat, factor: real) {
    exists total :: total > 0.0 && IsLeastSpread(matrix, columns, p, total) &&
      (forall b: Vec, c: real | b(p) == 1.0 :: SquaredResiduals(matrix, columns, b, c) * factor >= total) &&
      exists b: Vec, c: real :: b(p) == 1.0 && SquaredResiduals(matrix, columns, b, c) * factor == total
  }

  /** Some combination of the columns, not all weights zero, is constant over the rows. */
  ghost predicate Collinear(matrix: seq<seq<real>>, columns: seq<nat>) {
    exists b: Vec, c: real, p: nat :: p < |columns| && b(p) != 0.0 && IsConstant(matrix, columns, b, c)
  }

  ghost predicate IsConstant(matrix: seq<seq<real>>, columns: seq<nat>, b: Vec, c: real) {
    forall r | 0 <= r < |matrix| :: Fitted(matrix[r], columns, b) == c
  }

  lemma {:induction false} ConstantExactly(rows: seq<seq<real>>, columns: seq<nat>, b: Vec, c: real)
    ensures SquaredResiduals(rows, columns, b, c) >= 0.0
    ensures SquaredResiduals(rows, columns, b, c) == 0.0 <==> IsConstant(rows, columns, b, c)
  {
    hide Fitted, Square;
    if rows != [] {
      ConstantExactly(rows[1..], columns, b, c);
      SquareNonnegative(Fitted(rows[0], columns, b) - c);
      assert forall r | 0 < r < |rows| :: rows[r] == rows[1..][r - 1];
      assert forall r | 0 <= r < |rows[1..]| :: rows[1..][r] == rows[r + 1];
    }
  }

  /** A combination is constant over the rows for some intercept exactly when its
      centered image vanishes. */
  lemma VanishesExactly(matrix: seq<seq<real>>, columns: seq<nat>, b: Vec)
    requires matrix != []
    ensures ImageSquares(CenteredDesign(matrix, columns), |columns|, b) == 0.0 <==>
              exists c :: IsConstant(matrix, columns, b, c)
  {
    hide IsConstant, SquaredResiduals, ImageSquares;
    var mean := ResidualsLeast(matrix, columns, b);
    ConstantExactly(matrix, columns, b, mean);
    GramForm(CenteredDesign(matrix, columns), |columns|, b);
    forall c | IsConstant(matrix, columns, b, c)
      ensures ImageSquares(CenteredDesign(matrix, columns), |columns|, b) == 0.0
    {
      ConstantExactly(matrix, columns, b, c);
    }
  }
}
