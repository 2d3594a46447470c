/** Variance inflation factors of a design matrix
    (src/envresearch/econometrics/_valuation_diagnostics.py lines 235-260).
    The square root is a parameter with only its defining property. */
module VarianceInflation {
  import opened Reals
  import opened Sums
  import opened Quadratic
  import opened Spectra
  import opened Extremes
  import opened ConditionNumber
  import opened Centering
  import Inversion

  datatype Result = Vif(value: real) | SingularCorrelation | DivisionByZero

  ghost predicate IsRoot(root: real -> real) {
    forall v: real :: v >= 0.0 ==> root(v) >= 0.0 && root(v) * root(v) == v
  }

  // ----------------------------------------------------- inverses of correlations

  function Minus(u: Vec, v: Vec): Vec {
    i => u(i) - v(i)
  }

  lemma DotMinus(n: nat, u: Vec, v: Vec, w: Vec)
    ensures Dot(n, Minus(u, v), w) == Dot(n, u, w) - Dot(n, v, w)
  {
    DotLinear(0, n, 1.0, u, -1.0, v, Minus(u, v), w);
  }

  /** The inverse of a semidefinite matrix with unit diagonal has diagonal at least one. */
  lemma InverseDiagonal(n: nat, a: Mat, r: Mat, p: nat)
    requires Symmetric(n, a) && PositiveSemidefinite(n, a) && Inversion.AreInverse(n, r, a)
    requires p < n && a(p, p) == 1.0
    ensures r(p, p) >= 1.0
  {
    hide Dot, Quad;
    var x, e := Column(r, p), Unit(p);
    var y, image := Minus(x, e), Minus(e, Column(a, p));
    forall i | 0 <= i < n ensures Apply(n, a, y)(i) == image(i) {
      DotCommutes(0, n, Row(a, i), y);
      DotIsFrom(n, Row(a, i), y);
      DotIsFrom(n, y, Row(a, i));
      DotMinus(n, x, e, Row(a, i));
      DotFlip(n, x, Row(a, i));
      DotUnit(n, Row(a, i), p);
    }
    QuadIsDot(n, a, y);
    DotCongruence(n, y, Apply(n, a, y), y, image);
    DotFlip(n, y, image);
    DotMinus(n, e, Column(a, p), y);
    DotUnit(n, y, p);
    DotFlip(n, Column(a, p), y);
    DotMinus(n, x, e, Column(a, p));
    DotUnit(n, Column(a, p), p);
    DotCongruence(n, Column(a, p), x, Row(a, p), x);
    DotFlip(n, x, Column(a, p));
    assert Dot(n, Row(a, p), x) == 1.0;
    assert Quad(n, a, y) >= 0.0;
  }

  /** The form times the inverse's diagonal entry covers the square of that coordinate. */
  lemma InverseBoundsCoordinate(n: nat, a: Mat, r: Mat, p: nat, x: Vec)
    requires Symmetric(n, a) && PositiveSemidefinite(n, a) && Inversion.AreInverse(n, r, a)
    requires p < n && r(p, p) > 0.0
    ensures Quad(n, a, x) * r(p, p) >= Square(x(p))
  {
    hide Dot, Quad;
    var c, d := Column(r, p), r(p, p);
    var t := x(p) / d;
    var y := Combined(1.0, x, -t, c);
    InverseColumn(n, a, r, p, x);
    FormOfSum(n, a, x, -t, c);
    assert Quad(n, a, y) >= 0.0;
    CompletedSquare(Quad(n, a, x), x(p), d, t);
  }

  lemma CompletedSquare(form: real, x: real, d: real, t: real)
    requires d > 0.0 && t == x / d && form + 2.0 * (-t) * x + Square(-t) * d >= 0.0
    ensures form * d >= Square(x)
  {
    assert t * d == x;
    NonnegativeProduct(form + 2.0 * (-t) * x + Square(-t) * d, d);
    assert (form + 2.0 * (-t) * x + Square(-t) * d) * d == form * d - 2.0 * (x * (t * d)) + (t * d) * (t * d);
  }

  /** The matrix sends column p of its inverse to the p-th unit vector. */
  lemma InverseColumn(n: nat, a: Mat, r: Mat, p: nat, x: Vec)
    requires Symmetric(n, a) && Inversion.AreInverse(n, r, a) && p < n
    ensures Dot(n, x, Apply(n, a, Column(r, p))) == x(p)
    ensures Quad(n, a, Column(r, p)) == r(p, p)
  {
    hide Dot, Quad;
    var c := Column(r, p);
    forall i | 0 <= i < n ensures Apply(n, a, c)(i) == Unit(p)(i) {
      DotIsFrom(n, Row(a, i), c);
    }
    DotCongruence(n, x, Apply(n, a, c), x, Unit(p));
    DotUnit(n, x, p);
    QuadIsDot(n, a, c);
    DotCongruence(n, c, Apply(n, a, c), c, Unit(p));
    DotUnit(n, c, p);
  }

  /** The form of x + t c, when the matrix is symmetric. */
  lemma FormOfSum(n: nat, a: Mat, x: Vec, t: real, c: Vec)
    requires Symmetric(n, a)
    ensures Quad(n, a, Combined(1.0, x, t, c))
         == Quad(n, a, x) + 2.0 * t * Dot(n, x, Apply(n, a, c)) + Square(t) * Quad(n, a, c)
  {
    hide Dot, Quad;
    var y, ax, ac := Combined(1.0, x, t, c), Apply(n, a, x), Apply(n, a, c);
    var ay := Apply(n, a, y);
    forall i | 0 <= i < n ensures ay(i) == 1.0 * ax(i) + t * ac(i) {
      DotOfSum(n, x, t, c, y, Row(a, i));
      DotIsFrom(n, Row(a, i), y);
      DotIsFrom(n, Row(a, i), x);
      DotIsFrom(n, Row(a, i), c);
    }
    DotOfSum(n, x, t, c, y, ay);
    DotOfSum(n, ax, t, ac, ay, x);
    DotOfSum(n, ax, t, ac, ay, c);
    SymmetricProduct(n, a, c, x);
    QuadIsDot(n, a, y);
    QuadIsDot(n, a, x);
    QuadIsDot(n, a, c);
    ExpandForm(t, Quad(n, a, y), Quad(n, a, x), Dot(n, x, ac), Quad(n, a, c), Dot(n, x, ay), Dot(n, c, ay));
  }

  lemma DotOfSum(n: nat, u: Vec, t: real, v: Vec, w: Vec, x: Vec)
    requires forall i | 0 <= i < n :: w(i) == 1.0 * u(i) + t * v(i)
    ensures Dot(n, w, x) == Dot(n, x, w) == Dot(n, x, u) + t * Dot(n, x, v)
  {
    hide Sum;
    DotLinear(0, n, 1.0, u, t, v, w, x);
    DotFlip(n, w, x);
    DotFlip(n, u, x);
    DotFlip(n, v, x);
  }

  lemma ExpandForm(t: real, form: real, xx: real, xc: real, cc: real, xy: real, cy: real)
    requires form == xy + t * cy && xy == xx + t * xc && cy == xc + t * cc
    ensures form == xx + 2.0 * t * xc + Square(t) * cc
  {
  }

  lemma DotIsFrom(n: nat, u: Vec, v: Vec)
    ensures Dot(n, u, v) == DotFrom(0, n, u, v)
  {
  }

  lemma DotFlip(n: nat, u: Vec, v: Vec)
    ensures Dot(n, u, v) == Dot(n, v, u)
  {
    DotCommutes(0, n, u, v);
  }

  lemma QuadIsDot(n: nat, a: Mat, x: Vec)
    ensures Quad(n, a, x) == Dot(n, x, Apply(n, a, x))
  {
  }

  // --------------------------------------------------------- scaling both sides

  /** w g_i g_j m_ij. */
  function Scaled(w: real, g: Vec, m: Mat): Mat {
    (i, j) => w * (g(i) * g(j)) * m(i, j)
  }

  lemma ScaledTerm(w: real, u: real, v: real, m: real, x: real)
    ensures w * (u * v) * m * x == w * u * (m * (v * x))
  {
  }

  /** The form of a scaled matrix is the form at the scaled vector. */
  lemma ScaledForm(n: nat, w: real, g: Vec, m: Mat, x: Vec)
    ensures Quad(n, Scaled(w, g, m), x) == w * Quad(n, m, Times(g, x))
  {
    hide Sum;
    var y := Times(g, x);
    forall i | 0 <= i < n ensures Apply(n, Scaled(w, g, m), x)(i) == w * g(i) * Apply(n, m, y)(i) {
      forall j | 0 <= j < n ensures Times(Row(Scaled(w, g, m), i), x)(j) == w * g(i) * Times(Row(m, i), y)(j) {
        ScaledTerm(w, g(i), g(j), m(i, j), x(j));
      }
      SumScale(0, n, w * g(i), Times(Row(m, i), y), Times(Row(Scaled(w, g, m), i), x));
    }
    forall i | 0 <= i < n
      ensures Times(x, Apply(n, Scaled(w, g, m), x))(i) == w * Times(y, Apply(n, m, y))(i)
    {
      Rearranged(w, g(i), x(i), Apply(n, m, y)(i));
    }
    SumScale(0, n, w, Times(y, Apply(n, m, y)), Times(x, Apply(n, Scaled(w, g, m), x)));
  }

  lemma Rearranged(w: real, u: real, x: real, z: real)
    ensures x * (w * u * z) == w * ((u * x) * z)
  {
  }

  lemma ScaledSemidefinite(n: nat, w: real, g: Vec, m: Mat)
    requires w >= 0.0 && Symmetric(n, m) && PositiveSemidefinite(n, m)
    ensures Symmetric(n, Scaled(w, g, m)) && PositiveSemidefinite(n, Scaled(w, g, m))
  {
    hide Quad;
    forall x: Vec ensures Quad(n, Scaled(w, g, m), x) >= 0.0 {
      ScaledForm(n, w, g, m, x);
      NonnegativeProduct(w, Quad(n, m, Times(g, x)));
    }
  }

  // --------------------------------------------------------------- the correlation

  /** The entry the source computes. */
  function Correlation(cross: real, degrees: real, left: real, right: real): real
    requires degrees * left * right != 0.0
  {
    cross / (degrees * left * right)
  }

  lemma Reciprocals(cross: real, degrees: real, left: real, right: real)
    requires degrees > 0.0 && left > 0.0 && right > 0.0
    ensures degrees * left * right > 0.0
    ensures Correlation(cross, degrees, left, right) == (1.0 / degrees) * ((1.0 / left) * (1.0 / right)) * cross
  {
    PositiveProduct(degrees, left);
    PositiveProduct(degrees * left, right);
    var d, l, r := 1.0 / degrees, 1.0 / left, 1.0 / right;
    ThreeReciprocals(degrees, left, right, d, l, r);
    QuotientIs(cross, degrees * left * right, d * (l * r));
  }

  lemma ThreeReciprocals(a: real, b: real, c: real, d: real, l: real, r: real)
    requires d * a == 1.0 && l * b == 1.0 && r * c == 1.0
    ensures d * (l * r) * (a * b * c) == 1.0
  {
    calc {
      d * (l * r) * (a * b * c);
      (d * a) * ((l * b) * (r * c));
      1.0;
    }
  }

  lemma QuotientIs(u: real, v: real, w: real)
    requires v > 0.0 && w * v == 1.0
    ensures u / v == w * u
  {
    assert (w * u) * v == u * (w * v) == u;
  }

  /** Dividing a sum of squares by itself through its own scale. */
  lemma UnitDiagonal(squares: real, degrees: real, scale: real)
    requires squares > 0.0 && degrees > 0.0 && scale > 0.0 && scale * scale == squares / degrees
    ensures degrees * scale * scale > 0.0
    ensures Correlation(squares, degrees, scale, scale) == 1.0
  {
    var d := degrees * scale * scale;
    assert d == degrees * (scale * scale) == squares;
    assert Correlation(squares, degrees, scale, scale) == squares / d;
    Inversion.SelfQuotient(d);
  }

  lemma PositiveRoot(root: real -> real, v: real)
    requires IsRoot(root) && v > 0.0
    ensures root(v) > 0.0
  {
  }

  lemma PositiveQuotient(u: real, v: real)
    requires u > 0.0 && v > 0.0
    ensures u / v > 0.0
  {
  }

  /** A scale for each varying column. */
  function Scales(centered: seq<seq<real>>, k: nat, degrees: real, root: real -> real): seq<real>
    requires degrees > 0.0
  {
    seq(k, i requires 0 <= i < k => root(GramEntry(centered, i, i) / degrees))
  }

  function ReciprocalOf(scales: seq<real>): Vec {
    i => if 0 <= i < |scales| && scales[i] != 0.0 then 1.0 / scales[i] else 0.0
  }

  ghost predicate Standardized(k: nat, centered: seq<seq<real>>, degrees: real, scales: seq<real>) {
    && degrees > 0.0 && |scales| == k
    && forall i | 0 <= i < k ::
         scales[i] > 0.0 && GramEntry(centered, i, i) > 0.0 &&
           scales[i] * scales[i] == GramEntry(centered, i, i) / degrees
  }

  /** The correlation matrix, entry by entry as the source computes it. */
  ghost predicate IsCorrelation(k: nat, a: Mat, centered: seq<seq<real>>, degrees: real, scales: seq<real>)
    requires Standardized(k, centered, degrees, scales)
  {
    forall i, j | 0 <= i < k && 0 <= j < k ::
      degrees * scales[i] * scales[j] != 0.0 &&
      a(i, j) == Correlation(GramEntry(centered, i, j), degrees, scales[i], scales[j])
  }

  lemma CorrelationSemidefinite(k: nat, a: Mat, centered: seq<seq<real>>, degrees: real, scales: seq<real>)
    requires Standardized(k, centered, degrees, scales) && IsCorrelation(k, a, centered, degrees, scales)
    ensures Symmetric(k, a) && PositiveSemidefinite(k, a) && forall i | 0 <= i < k :: a(i, i) == 1.0
  {
    hide Quad, GramEntry, Correlation;
    var b := Scaled(1.0 / degrees, ReciprocalOf(scales), Gram(centered));
    GramSemidefinite(centered, k);
    ScaledSemidefinite(k, 1.0 / degrees, ReciprocalOf(scales), Gram(centered));
    CorrelationIsScaled(k, a, centered, degrees, scales);
    forall x: Vec ensures Quad(k, a, x) >= 0.0 {
      QuadCongruence(k, a, b, x);
    }
    forall i | 0 <= i < k ensures a(i, i) == 1.0 {
      UnitDiagonal(GramEntry(centered, i, i), degrees, scales[i]);
    }
  }

  lemma CorrelationIsScaled(k: nat, a: Mat, centered: seq<seq<real>>, degrees: real, scales: seq<real>)
    requires Standardized(k, centered, degrees, scales) && IsCorrelation(k, a, centered, degrees, scales)
    ensures var b := Scaled(1.0 / degrees, ReciprocalOf(scales), Gram(centered));
            forall i, j | 0 <= i < k && 0 <= j < k :: a(i, j) == b(i, j)
  {
    hide GramEntry, Correlation, Scaled;
    var w, g, m := 1.0 / degrees, ReciprocalOf(scales), Gram(centered);
    forall i, j | 0 <= i < k && 0 <= j < k ensures a(i, j) == Scaled(w, g, m)(i, j) {
      Reciprocals(GramEntry(centered, i, j), degrees, scales[i], scales[j]);
      ScaledAt(w, g, m, i, j, 1.0 / scales[i], 1.0 / scales[j], GramEntry(centered, i, j));
    }
  }

  lemma ScaledAt(w: real, g: Vec, m: Mat, i: int, j: int, u: real, v: real, x: real)
    requires g(i) == u && g(j) == v && m(i, j) == x
    ensures Scaled(w, g, m)(i, j) == w * (u * v) * x
  {
  }

  // ------------------------------------------------------- what the factor means

  /** Of the combinations of the columns with weight one on column p, the shortest
      leaves the column's own squared length divided by the factor: what the other
      columns leave unexplained of it. */
  ghost predicate IsInflation(k: nat, rows: seq<seq<real>>, p: nat, factor: real) {
    && (forall b: Vec | b(p) == 1.0 :: ImageSquares(rows, k, b) * factor >= GramEntry(rows, p, p))
    && exists b: Vec :: b(p) == 1.0 && ImageSquares(rows, k, b) * factor == GramEntry(rows, p, p)
  }

  function Weighted(scales: seq<real>, b: Vec): Vec {
    i => if 0 <= i < |scales| then scales[i] * b(i) else 0.0
  }

  lemma ReciprocalCancels(s: real, b: real)
    requires s > 0.0
    ensures 1.0 / s * (s * b) == b
  {
  }

  /** The correlation's form at the weighted vector is the image's squared length. */
  lemma CorrelationForm(k: nat, a: Mat, centered: seq<seq<real>>, degrees: real, scales: seq<real>, b: Vec)
    requires Standardized(k, centered, degrees, scales) && IsCorrelation(k, a, centered, degrees, scales)
    ensures degrees * Quad(k, a, Weighted(scales, b)) == ImageSquares(centered, k, b)
  {
    hide Quad, GramEntry, Correlation, ImageSquares;
    var g, m, x := ReciprocalOf(scales), Gram(centered), Weighted(scales, b);
    CorrelationIsScaled(k, a, centered, degrees, scales);
    QuadCongruence(k, a, Scaled(1.0 / degrees, g, m), x);
    ScaledForm(k, 1.0 / degrees, g, m, x);
    forall i | 0 <= i < k ensures Times(g, x)(i) == b(i) {
      ReciprocalCancels(scales[i], b(i));
    }
    FormCongruence(k, m, Times(g, x), b);
    GramForm(centered, k, b);
    TimesReciprocal(degrees, Quad(k, m, b));
  }

  lemma TimesReciprocal(d: real, v: real)
    requires d > 0.0
    ensures d * (1.0 / d * v) == v
  {
  }

  /** Scaling a vector scales its form by the square. */
  lemma FormOfMultiple(n: nat, a: Mat, t: real, c: Vec, x: Vec)
    requires Symmetric(n, a) && forall i | 0 <= i < n :: x(i) == t * c(i)
    ensures Quad(n, a, x) == Square(t) * Quad(n, a, c)
  {
    hide Quad, Dot;
    FormOfSum(n, a, c, t - 1.0, c);
    QuadIsDot(n, a, c);
    FormCongruence(n, a, x, Combined(1.0, c, t - 1.0, c));
    GatherMultiple(t, Quad(n, a, c));
  }

  lemma GatherMultiple(t: real, q: real)
    ensures q + 2.0 * (t - 1.0) * q + Square(t - 1.0) * q == Square(t) * q
  {
  }

  /** The combination that attains the least length: column p of the inverse, rescaled. */
  function Shortest(scales: seq<real>, r: Mat, p: nat): Vec
    requires p < |scales| && r(p, p) != 0.0
  {
    i => scales[p] / r(p, p) * r(i, p) * ReciprocalOf(scales)(i)
  }

  lemma ShortestAt(scales: seq<real>, r: Mat, p: nat, i: nat)
    requires p < |scales| && i < |scales| && r(p, p) != 0.0 && scales[p] > 0.0 && scales[i] > 0.0
    ensures Weighted(scales, Shortest(scales, r, p))(i) == scales[p] / r(p, p) * r(i, p)
    ensures Shortest(scales, r, p)(p) == 1.0
  {
    CancelScale(scales[i], scales[p] / r(p, p) * r(i, p));
    CancelOwn(scales[p], r(p, p));
  }

  lemma CancelScale(s: real, v: real)
    requires s > 0.0
    ensures s * (v * (1.0 / s)) == v
  {
  }

  lemma CancelOwn(s: real, d: real)
    requires s > 0.0 && d != 0.0
    ensures s / d * d * (1.0 / s) == 1.0
  {
    assert s / d * d == s;
  }

  /** A diagonal entry of the inverse correlation is a variance inflation of the design. */
  lemma FactorIsInflation(k: nat, a: Mat, r: Mat, centered: seq<seq<real>>, degrees: real, scales: seq<real>, p: nat)
    requires Standardized(k, centered, degrees, scales) && IsCorrelation(k, a, centered, degrees, scales)
    requires Inversion.AreInverse(k, r, a) && p < k
    ensures IsInflation(k, centered, p, r(p, p))
  {
    hide Quad, GramEntry, ImageSquares, Shortest, Weighted, IsCorrelation, Inversion.AreInverse;
    CorrelationSemidefinite(k, a, centered, degrees, scales);
    InverseDiagonal(k, a, r, p);
    forall b: Vec | b(p) == 1.0 ensures ImageSquares(centered, k, b) * r(p, p) >= GramEntry(centered, p, p) {
      EveryCombination(k, a, r, centered, degrees, scales, p, b);
    }
    AttainedCombination(k, a, r, centered, degrees, scales, p);
  }

  lemma EveryCombination(k: nat, a: Mat, r: Mat, centered: seq<seq<real>>, degrees: real, scales: seq<real>,
                         p: nat, b: Vec)
    requires Standardized(k, centered, degrees, scales) && IsCorrelation(k, a, centered, degrees, scales)
    requires Inversion.AreInverse(k, r, a) && p < k && b(p) == 1.0 && r(p, p) > 0.0
    requires Symmetric(k, a) && PositiveSemidefinite(k, a)
    ensures ImageSquares(centered, k, b) * r(p, p) >= GramEntry(centered, p, p)
  {
    hide Quad, GramEntry, ImageSquares, IsCorrelation, Inversion.AreInverse;
    var x := Weighted(scales, b);
    assert x(p) == scales[p];
    CorrelationForm(k, a, centered, degrees, scales, b);
    InverseBoundsCoordinate(k, a, r, p, x);
    TimesDegrees(degrees, Quad(k, a, x), r(p, p), scales[p], GramEntry(centered, p, p));
  }

  lemma AttainedCombination(k: nat, a: Mat, r: Mat, centered: seq<seq<real>>, degrees: real, scales: seq<real>, p: nat)
    requires Standardized(k, centered, degrees, scales) && IsCorrelation(k, a, centered, degrees, scales)
    requires Inversion.AreInverse(k, r, a) && p < k && r(p, p) > 0.0 && Symmetric(k, a)
    ensures var b := Shortest(scales, r, p);
            b(p) == 1.0 && ImageSquares(centered, k, b) * r(p, p) == GramEntry(centered, p, p)
  {
    hide Quad, GramEntry, ImageSquares, Shortest, Weighted, IsCorrelation, Inversion.AreInverse, Symmetric;
    var b, d, s := Shortest(scales, r, p), r(p, p), scales[p];
    var form := Quad(k, a, Weighted(scales, b));
    ShortestAt(scales, r, p, p);
    CorrelationForm(k, a, centered, degrees, scales, b);
    ShortestForm(k, a, r, scales, p);
    AttainedProduct(s / d, d, s, form);
    TimesDegrees(degrees, form, d, s, GramEntry(centered, p, p));
  }

  lemma ShortestForm(k: nat, a: Mat, r: Mat, scales: seq<real>, p: nat)
    requires |scales| == k && forall i | 0 <= i < k :: scales[i] > 0.0
    requires Symmetric(k, a) && Inversion.AreInverse(k, r, a) && p < k && r(p, p) > 0.0
    ensures var t := scales[p] / r(p, p);
            Quad(k, a, Weighted(scales, Shortest(scales, r, p))) == Square(t) * r(p, p) && t * r(p, p) == scales[p]
  {
    hide Quad, Shortest, Weighted, Symmetric, Inversion.AreInverse;
    var x, t := Weighted(scales, Shortest(scales, r, p)), scales[p] / r(p, p);
    forall i | 0 <= i < k ensures x(i) == t * Column(r, p)(i) {
      ShortestAt(scales, r, p, i);
    }
    FormOfMultiple(k, a, t, Column(r, p), x);
    InverseColumn(k, a, r, p, x);
  }

  lemma AttainedProduct(t: real, d: real, s: real, form: real)
    requires t * d == s && form == Square(t) * d
    ensures form * d == Square(s)
  {
    assert Square(t) * d * d == (t * d) * (t * d);
  }

  lemma TimesDegrees(degrees: real, form: real, d: real, s: real, squares: real)
    requires degrees > 0.0 && s * s == squares / degrees
    ensures form * d >= Square(s) ==> degrees * form * d >= squares
    ensures form * d == Square(s) ==> degrees * form * d == squares
  {
    assert degrees * (s * s) == squares;
    assert degrees * form * d == degrees * (form * d);
    if form * d >= Square(s) {
      NonnegativeProduct(degrees, form * d - Square(s));
    }
  }

  // ---------------------------------------------------------- back on the design

  /** The inflation of a centered column is that of the design column, intercept and all. */
  lemma InflationOnDesign(matrix: seq<seq<real>>, columns: seq<nat>, p: nat, factor: real)
    requires matrix != [] && p < |columns| && factor > 0.0
    requires IsInflation(|columns|, CenteredDesign(matrix, columns), p, factor)
    requires GramEntry(CenteredDesign(matrix, columns), p, p) > 0.0
    ensures InflatesDesign(matrix, columns, p, factor)
  {
    hide SquaredResiduals, ImageSquares, GramEntry, CenteredDesign;
    var k, centered := |columns|, CenteredDesign(matrix, columns);
    var total := GramEntry(centered, p, p);
    OwnSpread(matrix, columns, p);
    forall b: Vec, c: real | b(p) == 1.0 ensures SquaredResiduals(matrix, columns, b, c) * factor >= total {
      var mean := ResidualsLeast(matrix, columns, b);
      ProductAtLeast(SquaredResiduals(matrix, columns, b, c), ImageSquares(centered, k, b), factor, total);
    }
    var b: Vec :| b(p) == 1.0 && ImageSquares(centered, k, b) * factor == total;
    var mean := ResidualsLeast(matrix, columns, b);
    assert SquaredResiduals(matrix, columns, b, mean) * factor == total;
  }

  lemma ProductAtLeast(u: real, v: real, factor: real, total: real)
    requires u >= v && factor > 0.0 && v * factor >= total
    ensures u * factor >= total
  {
  }

  lemma OwnSpread(matrix: seq<seq<real>>, columns: seq<nat>, p: nat)
    requires matrix != [] && p < |columns|
    ensures IsLeastSpread(matrix, columns, p, GramEntry(CenteredDesign(matrix, columns), p, p))
  {
    hide SquaredResiduals, ImageSquares, GramEntry, Quad, CenteredDesign;
    var centered := CenteredDesign(matrix, columns);
    var mean := ResidualsLeast(matrix, columns, Unit(p));
    GramForm(centered, |columns|, Unit(p));
    QuadUnit(|columns|, Gram(centered), p);
    assert SquaredResiduals(matrix, columns, Unit(p), mean) == GramEntry(centered, p, p);
  }

  /** Where the form of a semidefinite matrix vanishes, so does the image. */
  lemma NullForm(n: nat, a: Mat, x: Vec)
    requires Symmetric(n, a) && PositiveSemidefinite(n, a) && Quad(n, a, x) == 0.0
    ensures Inversion.MapsToZero(n, a, x)
  {
    hide Dot, Quad;
    forall i | 0 <= i < n ensures Apply(n, a, x)(i) == 0.0 {
      NullFormAt(n, a, x, i);
    }
  }

  lemma NullFormAt(n: nat, a: Mat, x: Vec, i: nat)
    requires Symmetric(n, a) && PositiveSemidefinite(n, a) && Quad(n, a, x) == 0.0 && i < n
    ensures Apply(n, a, x)(i) == 0.0
  {
    hide Dot, Quad, Apply;
    var g, d := Apply(n, a, x)(i), a(i, i);
    QuadUnit(n, a, i);
    assert d >= 0.0;
    SymmetricProduct(n, a, x, Unit(i));
    DotUnit(n, Apply(n, a, x), i);
    var t := -(g / (d + 1.0));
    FormOfSum(n, a, x, t, Unit(i));
    assert Quad(n, a, Combined(1.0, x, t, Unit(i))) >= 0.0;
    NegativeStep(g, d, t);
  }

  lemma NegativeStep(g: real, d: real, t: real)
    requires d >= 0.0 && t == -(g / (d + 1.0)) && 2.0 * t * g + Square(t) * d >= 0.0
    ensures g == 0.0
  {
    assert t * (d + 1.0) == -g;
    assert 2.0 * t * g == -2.0 * (t * t) * (d + 1.0);
    SquareNonnegative(t);
    NonnegativeProduct(Square(t), d);
    assert Square(t) == 0.0;
  }

  /** The correlation matrix is singular exactly when the design columns are collinear
      with an intercept. */
  lemma SingularExactly(matrix: seq<seq<real>>, columns: seq<nat>, a: Mat, degrees: real, scales: seq<real>)
    requires matrix != []
    requires var k, centered := |columns|, CenteredDesign(matrix, columns);
             Standardized(k, centered, degrees, scales) && IsCorrelation(k, a, centered, degrees, scales)
    ensures Inversion.Singular(|columns|, a) <==> Collinear(matrix, columns)
  {
    hide Quad, GramEntry, ImageSquares, IsCorrelation, Inversion.MapsToZero, IsConstant, CenteredDesign;
    var k, centered := |columns|, CenteredDesign(matrix, columns);
    CorrelationSemidefinite(k, a, centered, degrees, scales);
    if Inversion.Singular(k, a) {
      var x: Vec, p: nat :| p < k && x(p) != 0.0 && Inversion.MapsToZero(k, a, x);
      var b := Times(ReciprocalOf(scales), x);
      SingularImage(k, a, centered, degrees, scales, x);
      VanishesExactly(matrix, columns, b);
      UnscaledNonzero(scales[p], x(p));
      assert b(p) != 0.0;
      var c :| IsConstant(matrix, columns, b, c);
      assert Collinear(matrix, columns);
    }
    if Collinear(matrix, columns) {
      var b: Vec, c: real, p: nat :| p < k && b(p) != 0.0 && IsConstant(matrix, columns, b, c);
      VanishesExactly(matrix, columns, b);
      CorrelationForm(k, a, centered, degrees, scales, b);
      var x := Weighted(scales, b);
      NullProduct(degrees, Quad(k, a, x));
      NullForm(k, a, x);
      NonzeroProduct(scales[p], b(p));
      assert x(p) != 0.0;
      assert Inversion.Singular(k, a);
    }
  }

  lemma NullProduct(d: real, v: real)
    requires d > 0.0 && d * v == 0.0
    ensures v == 0.0
  {
  }

  lemma NonzeroProduct(s: real, b: real)
    requires s > 0.0 && b != 0.0
    ensures s * b != 0.0
  {
  }

  lemma UnscaledNonzero(s: real, x: real)
    requires s > 0.0 && x != 0.0
    ensures 1.0 / s * x != 0.0
  {
    TimesReciprocal(s, x);
  }

  /** A vector the correlation maps to zero has a vanishing image once unscaled. */
  lemma SingularImage(k: nat, a: Mat, centered: seq<seq<real>>, degrees: real, scales: seq<real>, x: Vec)
    requires Standardized(k, centered, degrees, scales) && IsCorrelation(k, a, centered, degrees, scales)
    requires Inversion.MapsToZero(k, a, x)
    ensures ImageSquares(centered, k, Times(ReciprocalOf(scales), x)) == 0.0
  {
    hide Quad, Sum, GramEntry, IsCorrelation, ImageSquares;
    var b := Times(ReciprocalOf(scales), x);
    CorrelationForm(k, a, centered, degrees, scales, b);
    forall i | 0 <= i < k ensures Weighted(scales, b)(i) == x(i) {
      TimesReciprocal(scales[i], x(i));
    }
    FormCongruence(k, a, Weighted(scales, b), x);
    QuadIsDot(k, a, x);
    SumConstantZero(k, Times(x, Apply(k, a, x)));
  }

  // ---------------------------------------------------------------------- max VIF

  function DiagonalOf(rows: seq<seq<real>>): (r: seq<real>)
    requires IsSquare(rows)
  {
    seq(|rows|, i requires 0 <= i < |rows| => rows[i][i])
  }

  /** _max_vif: whatever it returns is at least one.  With two or more varying columns
      it is the largest of their variance inflations on the design, intercept included.
      Each is a diagonal entry of a two-sided inverse of the correlation matrix of those
      columns, centered and scaled by their standard deviations; at a zero pivot
      threshold it exists unless those columns are collinear with an intercept. */
  method MaxVif(matrix: seq<seq<real>>, threshold: real, root: real -> real)
    returns (r: Result, ghost columns: seq<nat>, ghost scales: seq<real>, ghost correlation: Mat, ghost inverse: Mat)
    requires IsDesign(matrix) && threshold >= 0.0 && IsRoot(root)
    ensures ListsVarying(matrix, |matrix[0]|, columns)
    ensures r.Vif? ==> r.value >= 1.0
    ensures r.Vif? && |columns| >= 2 ==>
              && (forall i | 0 <= i < |columns| :: InflatesDesign(matrix, columns, i, inverse(i, i)))
              && (forall i | 0 <= i < |columns| :: inverse(i, i) <= r.value)
              && exists i | 0 <= i < |columns| :: inverse(i, i) == r.value
    ensures r.Vif? && |columns| >= 2 ==> Inversion.AreInverse(|columns|, inverse, correlation)
    ensures |columns| >= 2 ==>
              var k, centered, degrees := |columns|, CenteredDesign(matrix, columns), (|matrix| - 1) as real;
              && IsCentering(matrix, columns, centered)
              && Standardized(k, centered, degrees, scales) && IsCorrelation(k, correlation, centered, degrees, scales)
    ensures |columns| >= 2 ==>
              && Symmetric(|columns|, correlation) && PositiveSemidefinite(|columns|, correlation)
              && forall i | 0 <= i < |columns| :: correlation(i, i) == 1.0
    ensures threshold == 0.0 && |columns| >= 2 ==> (r.Vif? <==> !Collinear(matrix, columns))
    ensures r.SingularCorrelation? ==>
              |columns| >= 2 && Inversion.NearlySingular(|columns|, correlation, threshold)
    ensures |columns| < 2 ==> r == Vif(1.0)
  {
    hide Quad, Varying, VaryingColumn, ListsVarying, GramEntry, Scales, Standardized, IsCorrelation, DiagonalOf;
    hide CenteredDesign, IsCentering, InflatesDesign, Collinear, Symmetric, PositiveSemidefinite, IsRoot;
    hide Inversion.AreInverse, Inversion.NearlySingular, Inversion.Singular, Inversion.MapsToZero;
    var varying := Varying(matrix, |matrix[0]|);
    columns := varying;
    VaryingLists(matrix, |matrix[0]|);
    scales, correlation, inverse := [], (i, j) => 0.0, (i, j) => 0.0;
    if |varying| < 2 {
      return Vif(1.0), columns, scales, correlation, inverse;
    }
    CenteredSpread(matrix, columns, 0);
    var centered := CenteredDesign(matrix, varying);
    var degrees := (|matrix| - 1) as real;
    var deviations := Scales(centered, |varying|, degrees, root);
    scales := deviations;
    ScalesStandardize(matrix, columns, degrees, root);
    CenteredIsCentering(matrix, columns);
    var rows := CorrelationRows(|varying|, centered, degrees, deviations);
    correlation := Entries(rows);
    CorrelationSemidefinite(|columns|, correlation, centered, degrees, scales);
    SingularExactly(matrix, columns, correlation, degrees, scales);
    var outcome := Inversion.Invert(rows, threshold);
    match outcome
    case SingularMatrix => return SingularCorrelation, columns, scales, correlation, inverse;
    case DivisionByZero => return DivisionByZero, columns, scales, correlation, inverse;
    case Inverse(found) =>
      inverse := Entries(found);
      DiagonalFactors(|columns|, correlation, found);
      forall i | 0 <= i < |columns| ensures InflatesDesign(matrix, columns, i, inverse(i, i)) {
        FactorInflatesDesign(matrix, columns, correlation, inverse, degrees, scales, i);
      }
      return Vif(Greatest(DiagonalOf(found))), columns, scales, correlation, inverse;
  }

  lemma FactorInflatesDesign(matrix: seq<seq<real>>, columns: seq<nat>, a: Mat, r: Mat, degrees: real,
                             scales: seq<real>, p: nat)
    requires matrix != [] && p < |columns| && Inversion.AreInverse(|columns|, r, a)
    requires forall i | 0 <= i < |columns| :: VaryingColumn(matrix, columns[i])
    requires var k, centered := |columns|, CenteredDesign(matrix, columns);
             Standardized(k, centered, degrees, scales) && IsCorrelation(k, a, centered, degrees, scales)
    ensures InflatesDesign(matrix, columns, p, r(p, p))
  {
    hide CenteredDesign, VaryingColumn, GramEntry, IsInflation, IsCorrelation, Inversion.AreInverse;
    var k, centered := |columns|, CenteredDesign(matrix, columns);
    FactorIsInflation(k, a, r, centered, degrees, scales, p);
    CorrelationSemidefinite(k, a, centered, degrees, scales);
    InverseDiagonal(k, a, r, p);
    CenteredSpread(matrix, columns, p);
    InflationOnDesign(matrix, columns, p, r(p, p));
  }

  lemma DiagonalFactors(k: nat, a: Mat, found: seq<seq<real>>)
    requires k > 0 && |found| == k && IsSquare(found) && Inversion.AreInverse(k, Entries(found), a)
    requires Symmetric(k, a) && PositiveSemidefinite(k, a) && forall i | 0 <= i < k :: a(i, i) == 1.0
    ensures var r, value := Entries(found), Greatest(DiagonalOf(found));
            value >= 1.0 && (forall i | 0 <= i < k :: r(i, i) <= value) && exists i | 0 <= i < k :: r(i, i) == value
  {
    var r, diagonal := Entries(found), DiagonalOf(found);
    forall i | 0 <= i < k ensures r(i, i) == diagonal[i] && r(i, i) >= 1.0 {
      InverseDiagonal(k, a, r, i);
    }
    assert diagonal[0] in diagonal;
    var p :| 0 <= p < k && diagonal[p] == Greatest(diagonal);
    assert r(p, p) == Greatest(diagonal);
    forall i | 0 <= i < k ensures r(i, i) <= Greatest(diagonal) {
      assert diagonal[i] in diagonal;
    }
  }

  lemma ScalesStandardize(matrix: seq<seq<real>>, columns: seq<nat>, degrees: real, root: real -> real)
    requires matrix != [] && IsRoot(root) && degrees == (|matrix| - 1) as real && degrees > 0.0
    requires forall i | 0 <= i < |columns| :: VaryingColumn(matrix, columns[i])
    ensures var centered := CenteredDesign(matrix, columns);
            Standardized(|columns|, centered, degrees, Scales(centered, |columns|, degrees, root))
  {
    hide VaryingColumn, CenteredDesign, GramEntry;
    var centered := CenteredDesign(matrix, columns);
    forall i | 0 <= i < |columns|
      ensures GramEntry(centered, i, i) > 0.0 && root(GramEntry(centered, i, i) / degrees) > 0.0
    {
      CenteredSpread(matrix, columns, i);
      PositiveQuotient(GramEntry(centered, i, i), degrees);
      PositiveRoot(root, GramEntry(centered, i, i) / degrees);
    }
  }

  function CorrelationRows(k: nat, centered: seq<seq<real>>, degrees: real, scales: seq<real>): (rows: seq<seq<real>>)
    requires Standardized(k, centered, degrees, scales)
    ensures |rows| == k && IsSquare(rows) && IsCorrelation(k, Entries(rows), centered, degrees, scales)
  {
    assert forall i, j | 0 <= i < k && 0 <= j < k :: degrees * scales[i] * scales[j] != 0.0 by {
      forall i, j | 0 <= i < k && 0 <= j < k ensures degrees * scales[i] * scales[j] != 0.0 {
        Reciprocals(0.0, degrees, scales[i], scales[j]);
      }
    }
    seq(k, i requires 0 <= i < k =>
      seq(k, j requires 0 <= j < k =>
        if degrees * scales[i] * scales[j] == 0.0 then 0.0
        else Correlation(GramEntry(centered, i, j), degrees, scales[i], scales[j])))
  }
}
