/** Delta-method variance of a ratio under an accepted covariance
    (src/envresearch/econometrics/_valuation_welfare.py, lines 173-197, and the
    covariance validator of _valuation_evidence.py, lines 80-112).  Square roots
    are left unevaluated: a result is the radicand the source passes to sqrt. */
module DeltaMethod {
  import opened Reals
  import opened Sums
  import opened Quadratic
  import opened PsdTest
  import opened Sequences

  datatype Covariance = Covariance(terms: seq<string>, values: seq<seq<real>>)

  /** tau is the pivot tolerance, epsilon the variance tolerance. */
  datatype Tolerances = Tolerances(tau: real, epsilon: real)

  const SHIPPED := Tolerances(0.0000000001, 0.000000000001)

  ghost predicate ValidTolerances(t: Tolerances) {
    t.tau >= 0.0 && t.epsilon >= 0.0
  }

  function Max(u: real, v: real): real {
    if u >= v then u else v
  }

  /** math.isclose with its default relative tolerance and abs_tol = 1e-12. */
  predicate IsClose(u: real, v: real) {
    Abs(u - v) <= Max(0.000000001 * Max(Abs(u), Abs(v)), 0.000000000001)
  }

  /** What the covariance model's validators let through. */
  ghost predicate Accepted(c: Covariance, tau: real)
    requires tau >= 0.0
  {
    && |c.terms| >= 1
    && Distinct(c.terms)
    && |c.values| == |c.terms|
    && IsSquare(c.values)
    && (forall i | 0 <= i < |c.values| :: c.values[i][i] >= 0.0)
    && (forall i, j | 0 <= i < |c.values| && 0 <= j < |c.values| :: IsClose(c.values[i][j], c.values[j][i]))
    && Accepts(|c.values|, Entries(c.values), 0, tau)
  }

  function NumeratorGradient(denominator: real): real
    requires denominator != 0.0
  {
    -1.0 / denominator
  }

  function DenominatorGradient(numerator: real, denominator: real): real
    requires denominator != 0.0
  {
    numerator / (denominator * denominator)
  }

  function Variance(values: seq<seq<real>>, n: nat, d: nat, gn: real, gd: real): real
    requires IsSquare(values) && n < |values| && d < |values|
  {
    Square(gn) * values[n][n] + Square(gd) * values[d][d] + 2.0 * gn * gd * values[n][d]
  }

  datatype Outcome = UnknownTerm | ZeroDenominator | InvalidVariance | Radicand(value: real)

  function Position(terms: seq<string>, term: string): (i: int)
    ensures term !in terms ==> i == -1
    ensures term in terms ==> 0 <= i < |terms| && terms[i] == term
  {
    if |terms| == 0 then -1
    else if terms[|terms| - 1] == term then |terms| - 1
    else Position(terms[..|terms| - 1], term)
  }

  function RatioStandardError(c: Covariance, numeratorTerm: string, denominatorTerm: string,
                              numerator: real, denominator: real, epsilon: real): Outcome
    requires |c.values| == |c.terms| && IsSquare(c.values)
  {
    var n, d := Position(c.terms, numeratorTerm), Position(c.terms, denominatorTerm);
    if n < 0 || d < 0 then UnknownTerm
    else if denominator == 0.0 then ZeroDenominator
    else
      var gn, gd := NumeratorGradient(denominator), DenominatorGradient(numerator, denominator);
      var variance := Variance(c.values, n, d, gn, gd);
      if variance < -epsilon then InvalidVariance else Radicand(Max(variance, 0.0))
  }

  // ----------------------------------------------------- the slopes of the ratio

  /** The quantity whose error is computed. */
  function Ratio(numerator: real, denominator: real): real
    requires denominator != 0.0
  {
    -(numerator / denominator)
  }

  /** How far the ratio moves when one argument grows by h. */
  function NumeratorRise(numerator: real, denominator: real, h: real): real
    requires denominator != 0.0
  {
    Ratio(numerator + h, denominator) - Ratio(numerator, denominator)
  }

  function DenominatorRise(numerator: real, denominator: real, h: real): real
    requires denominator != 0.0 && denominator + h != 0.0
  {
    Ratio(numerator, denominator + h) - Ratio(numerator, denominator)
  }

  /** The ratio is linear in the numerator, and in the denominator linear up to a
      remainder of second order, with these slopes. */
  ghost predicate AreSlopes(numerator: real, denominator: real, gn: real, gd: real)
    requires denominator != 0.0
  {
    && (forall h :: NumeratorRise(numerator, denominator, h) == gn * h)
    && forall h | denominator + h != 0.0 ::
         DenominatorRise(numerator, denominator, h) == gd * h - gd * (h * h) / (denominator + h)
  }

  /** The two gradients are the slopes of the ratio, and nothing else is. */
  lemma GradientsAreSlopes(numerator: real, denominator: real, gn: real, gd: real)
    requires denominator != 0.0
    ensures AreSlopes(numerator, denominator, gn, gd) <==>
              gn == NumeratorGradient(denominator) && gd == DenominatorGradient(numerator, denominator)
  {
    hide NumeratorGradient, DenominatorGradient, AreSlopes;
    GradientsHold(numerator, denominator);
    if AreSlopes(numerator, denominator, gn, gd) {
      SlopesUnique(numerator, denominator, gn, gd,
                   NumeratorGradient(denominator), DenominatorGradient(numerator, denominator));
    }
  }

  lemma GradientsHold(numerator: real, denominator: real)
    requires denominator != 0.0
    ensures AreSlopes(numerator, denominator,
                      NumeratorGradient(denominator), DenominatorGradient(numerator, denominator))
  {
    hide NumeratorGradient, DenominatorGradient, NumeratorRise, DenominatorRise;
    var slope := DenominatorGradient(numerator, denominator);
    forall h ensures NumeratorRise(numerator, denominator, h) == NumeratorGradient(denominator) * h {
      NumeratorMoves(numerator, denominator, h);
    }
    forall h | denominator + h != 0.0
      ensures DenominatorRise(numerator, denominator, h) == slope * h - slope * (h * h) / (denominator + h)
    {
      DenominatorMoves(numerator, denominator, h);
    }
  }

  lemma SlopesUnique(numerator: real, denominator: real, gn: real, gd: real, pn: real, pd: real)
    requires denominator != 0.0
    requires AreSlopes(numerator, denominator, gn, gd) && AreSlopes(numerator, denominator, pn, pd)
    ensures gn == pn && gd == pd
  {
    var rise, twice := NumeratorRise(numerator, denominator, 1.0), DenominatorRise(numerator, denominator, denominator);
    hide NumeratorRise, DenominatorRise;
    assert rise == gn * 1.0 && rise == pn * 1.0;
    assert twice == gd * denominator - gd * (denominator * denominator) / (denominator + denominator);
    assert twice == pd * denominator - pd * (denominator * denominator) / (denominator + denominator);
    hide AreSlopes;
    SlopeFromDouble(gd, denominator, twice);
    SlopeFromDouble(pd, denominator, twice);
    SameProduct(gd, pd, denominator, twice);
  }

  lemma NumeratorMoves(numerator: real, denominator: real, h: real)
    requires denominator != 0.0
    ensures NumeratorRise(numerator, denominator, h) == NumeratorGradient(denominator) * h
  {
    var q := 1.0 / denominator;
    QuotientAsProduct(numerator + h, denominator, q);
    QuotientAsProduct(numerator, denominator, q);
    QuotientAsProduct(-1.0, denominator, q);
  }

  lemma QuotientAsProduct(u: real, v: real, q: real)
    requires v != 0.0 && q == 1.0 / v
    ensures u / v == u * q
  {
  }

  /** Multiplied out by the two denominators, both sides are the same. */
  lemma DenominatorMoves(numerator: real, denominator: real, h: real)
    requires denominator != 0.0 && denominator + h != 0.0
    ensures var g := DenominatorGradient(numerator, denominator);
            DenominatorRise(numerator, denominator, h) == g * h - g * (h * h) / (denominator + h)
  {
    var n, d, e := numerator, denominator, denominator + h;
    var p, q := 1.0 / d, 1.0 / e;
    Reciprocal(d, p);
    Reciprocal(e, q);
    var g := n * p * p;
    GradientAsProduct(n, d, p);
    QuotientAsProduct(n, d, p);
    QuotientAsProduct(n, e, q);
    QuotientAsProduct(g * (h * h), e, q);
    SecondOrder(n, d, h, p, q);
  }

  lemma Reciprocal(v: real, q: real)
    requires v != 0.0 && q == 1.0 / v
    ensures q * v == 1.0
  {
  }

  lemma GradientAsProduct(n: real, d: real, p: real)
    requires d != 0.0 && p * d == 1.0
    ensures n / (d * d) == n * p * p
  {
    assert d * d != 0.0;
    RegroupSquares(n, p, d, p * d);
    CancelFactor(n / (d * d), n * p * p, d * d);
  }

  lemma RegroupSquares(n: real, p: real, d: real, one: real)
    requires one == p * d == 1.0
    ensures (n * p * p) * (d * d) == n
  {
    assert (n * p * p) * (d * d) == n * ((p * d) * (p * d));
    assert (p * d) * (p * d) == one * one;
  }

  /** With p = 1/d and q = 1/(d + h): n p - n q = n p p h - n p p h h q. */
  lemma SecondOrder(n: real, d: real, h: real, p: real, q: real)
    requires p * d == 1.0 && q * (d + h) == 1.0
    ensures -(n * q) - -(n * p) == (n * p * p) * h - (n * p * p) * (h * h) * q
  {
    DifferenceOfReciprocals(d, h, p, q);
    var r := p - q;
    assert r == p * q * h;
    assert n * r == n * p - n * q;
    PowerStep(d, h, p, q);
    assert n * (p * q * h) == n * (p * p * h - p * p * (h * h) * q);
    DistributeOver(n, p, h, q);
  }

  lemma DistributeOver(n: real, p: real, h: real, q: real)
    ensures n * (p * p * h - p * p * (h * h) * q) == (n * p * p) * h - (n * p * p) * (h * h) * q
  {
    assert n * (p * p * h) == (n * p * p) * h;
    assert n * (p * p * (h * h) * q) == (n * p * p) * (h * h) * q;
  }

  lemma DifferenceOfReciprocals(d: real, h: real, p: real, q: real)
    requires p * d == 1.0 && q * (d + h) == 1.0
    ensures p - q == p * q * h
  {
    assert p * (q * (d + h)) == p * q * d + p * q * h;
    assert p * q * d == q * (p * d);
  }

  /** p q h = p (p - p q h) h. */
  lemma PowerStep(d: real, h: real, p: real, q: real)
    requires p * d == 1.0 && q * (d + h) == 1.0
    ensures p * q * h == p * p * h - p * p * (h * h) * q
  {
    DifferenceOfReciprocals(d, h, p, q);
    assert p * h * q == p * h * (p - p * q * h);
    assert p * h * (p - p * q * h) == p * p * h - p * p * (h * h) * q;
  }

  lemma SlopeFromDouble(g: real, d: real, rise: real)
    requires d != 0.0 && rise == g * d - g * (d * d) / (d + d)
    ensures rise + rise == g * d
  {
    var half := g * d / 2.0;
    assert half * (d + d) == g * (d * d);
    CancelFactor(half, g * (d * d) / (d + d), d + d);
  }

  lemma SameProduct(u: real, v: real, x: real, w: real)
    requires w + w == u * x && w + w == v * x && x != 0.0
    ensures u == v
  {
    CancelFactor(u, v, x);
  }

  /** Every outcome, with the slopes in place of the formulas for them: at the positions
      of the two terms the radicand is the covariance's form at the slopes, clamped. */
  lemma OutcomeExactly(c: Covariance, nt: string, dt: string, numerator: real, denominator: real, epsilon: real)
    requires |c.values| == |c.terms| && IsSquare(c.values) && Distinct(c.terms) && epsilon >= 0.0
    ensures var outcome := RatioStandardError(c, nt, dt, numerator, denominator, epsilon);
            && (outcome.UnknownTerm? <==> nt !in c.terms || dt !in c.terms)
            && (outcome.ZeroDenominator? <==> nt in c.terms && dt in c.terms && denominator == 0.0)
            && forall n, d, gn, gd: real | 0 <= n < |c.terms| && 0 <= d < |c.terms| &&
                 c.terms[n] == nt && c.terms[d] == dt && denominator != 0.0 &&
                   AreSlopes(numerator, denominator, gn, gd) ::
                 outcome == DeltaOutcome(gn * gn * c.values[n][n] + gd * gd * c.values[d][d]
                                         + gn * gd * c.values[n][d] + gn * gd * c.values[n][d], epsilon)
  {
    hide NumeratorGradient, DenominatorGradient, AreSlopes;
    forall n, d, gn, gd: real | 0 <= n < |c.terms| && 0 <= d < |c.terms| &&
      c.terms[n] == nt && c.terms[d] == dt && denominator != 0.0 && AreSlopes(numerator, denominator, gn, gd)
      ensures n == Position(c.terms, nt) && d == Position(c.terms, dt)
      ensures RatioStandardError(c, nt, dt, numerator, denominator, epsilon)
           == DeltaOutcome(gn * gn * c.values[n][n] + gd * gd * c.values[d][d]
                           + gn * gd * c.values[n][d] + gn * gd * c.values[n][d], epsilon)
    {
      GradientsAreSlopes(numerator, denominator, gn, gd);
      VarianceSpelled(c.values, n, d, gn, gd);
    }
  }

  function DeltaOutcome(variance: real, epsilon: real): Outcome {
    if variance < -epsilon then InvalidVariance else if variance < 0.0 then Radicand(0.0) else Radicand(variance)
  }

  lemma VarianceSpelled(values: seq<seq<real>>, n: nat, d: nat, gn: real, gd: real)
    requires IsSquare(values) && n < |values| && d < |values|
    ensures Variance(values, n, d, gn, gd)
         == gn * gn * values[n][n] + gd * gd * values[d][d] + gn * gd * values[n][d] + gn * gd * values[n][d]
  {
  }

  // ----------------------------------------------------------------- the bound

  /** What the one entry the variance reads adds over the certified one. */
  function Added(values: seq<seq<real>>, n: nat, d: nat, gn: real, gd: real): real {
    2.0 * gn * gd * (Entries(values)(n, d) - Lower(Entries(values))(n, d))
  }

  function Slack(values: seq<seq<real>>, n: nat, d: nat, gn: real, gd: real): real {
    Abs(Added(values, n, d, gn, gd))
  }

  /** The variance is the certified form at the gradient, plus whatever the two
      entries of the pair disagree by. */
  lemma VarianceIsForm(values: seq<seq<real>>, n: nat, d: nat, gn: real, gd: real)
    requires IsSquare(values) && n < |values| && d < |values|
    ensures Variance(values, n, d, gn, gd)
         == Quad(|values|, Lower(Entries(values)), Pair(n, gn, d, gd)) + Added(values, n, d, gn, gd)
    ensures Slack(values, n, d, gn, gd) >= -Added(values, n, d, gn, gd)
    ensures d <= n || values[n][d] == values[d][n] ==> Slack(values, n, d, gn, gd) == 0.0
  {
    hide Square, Quad, Pair;
    var s := Lower(Entries(values));
    QuadPair(|values|, s, n, gn, d, gd);
    RearrangeVariance(gn, gd, values[n][n], values[d][d], values[n][d], s(n, d));
    if d <= n || values[n][d] == values[d][n] {
      assert values[n][d] - s(n, d) == 0.0;
    }
  }

  lemma RearrangeVariance(gn: real, gd: real, nn: real, dd: real, nd: real, s: real)
    ensures Square(gn) * nn + Square(gd) * dd + 2.0 * gn * gd * nd
         == Square(gn) * nn + Square(gd) * dd + (gn * gd) * (s + s) + 2.0 * gn * gd * (nd - s)
  {
    assert (gn * gd) * (s + s) == 2.0 * ((gn * gd) * s);
    assert 2.0 * gn * gd * (nd - s) == 2.0 * ((gn * gd) * nd) - 2.0 * ((gn * gd) * s);
  }

  lemma SquareMonotone(u: real, v: real, tau: real)
    requires 0.0 <= u <= v && tau >= 0.0
    ensures tau * Square(u) <= tau * Square(v)
  {
    assert Square(v) - Square(u) == (v - u) * (v + u);
  }

  lemma CombineBounds(v: real, q: real, added: real, b: real, wide: real, slack: real)
    requires v == q + added && q >= -b && b <= wide && slack >= -added
    ensures v >= -wide - slack
  {
  }

  /** Every accepted covariance bounds the delta-method variance from below; nothing is
      lost when the entry read lies in the lower triangle or equals its mirror image. */
  lemma VarianceBound(c: Covariance, tau: real, n: nat, d: nat, gn: real, gd: real)
    requires tau >= 0.0 && Accepted(c, tau) && n < |c.values| && d < |c.values|
    ensures Variance(c.values, n, d, gn, gd) >= -(tau * Square(Abs(gn) + Abs(gd))) - Slack(c.values, n, d, gn, gd)
    ensures d <= n || c.values[n][d] == c.values[d][n] ==> Slack(c.values, n, d, gn, gd) == 0.0
  {
    hide Square, Pair, Quad, Variance, Accepts, AbsSum, IsClose, Abs, Slack, Added;
    var size, x := |c.values|, Pair(n, gn, d, gd);
    var wide := tau * Square(Abs(gn) + Abs(gd));
    VarianceIsForm(c.values, n, d, gn, gd);
    AcceptedFormBound(size, Entries(c.values), tau, x);
    AbsSumPair(size, n, gn, d, gd);
    SquareMonotone(AbsSum(size, x), Abs(gn) + Abs(gd), tau);
    CombineBounds(Variance(c.values, n, d, gn, gd), Quad(size, Lower(Entries(c.values)), x),
                  Added(c.values, n, d, gn, gd), tau * Square(AbsSum(size, x)), wide, Slack(c.values, n, d, gn, gd));
  }

  /** At tolerance zero, with such an entry, the invalid-variance error cannot be
      reached and the clamp to zero changes nothing. */
  lemma ZeroToleranceNeverInvalid(c: Covariance, nt: string, dt: string, numerator: real, denominator: real,
                                  epsilon: real)
    requires Accepted(c, 0.0) && epsilon >= 0.0 && nt in c.terms && dt in c.terms && denominator != 0.0
    requires var n, d := Position(c.terms, nt), Position(c.terms, dt); d <= n || c.values[n][d] == c.values[d][n]
    ensures var n, d := Position(c.terms, nt), Position(c.terms, dt);
            var gn, gd := NumeratorGradient(denominator), DenominatorGradient(numerator, denominator);
            && AreSlopes(numerator, denominator, gn, gd)
            && RatioStandardError(c, nt, dt, numerator, denominator, epsilon)
              == Radicand(Variance(c.values, n, d, gn, gd))
  {
    hide Square, Variance, Accepts, Slack, IsClose, AreSlopes;
    GradientsHold(numerator, denominator);
    var n, d := Position(c.terms, nt), Position(c.terms, dt);
    VarianceBound(c, 0.0, n, d, NumeratorGradient(denominator), DenominatorGradient(numerator, denominator));
  }

  // ------------------------------------- exactly when the error is unreachable

  /** No exactly symmetric accepted covariance makes this ratio's variance invalid. */
  ghost predicate NeverInvalid(t: Tolerances, numerator: real, denominator: real)
    requires ValidTolerances(t)
  {
    forall c: Covariance, nt: string, dt: string
      | Accepted(c, t.tau) && Symmetric(|c.values|, Entries(c.values)) ::
      !RatioStandardError(c, nt, dt, numerator, denominator, t.epsilon).InvalidVariance?
  }

  /** What a caller can check beforehand. */
  predicate GradientsWithinTolerance(t: Tolerances, numerator: real, denominator: real)
    requires denominator != 0.0
  {
    numerator == 0.0 ||
    t.tau * Square(Abs(NumeratorGradient(denominator)) + Abs(DenominatorGradient(numerator, denominator))) <= t.epsilon
  }

  lemma WithinToleranceNeverInvalid(t: Tolerances, numerator: real, denominator: real)
    requires ValidTolerances(t) && denominator != 0.0
    requires GradientsWithinTolerance(t, numerator, denominator)
    ensures NeverInvalid(t, numerator, denominator)
  {
    forall c: Covariance, nt: string, dt: string
      | Accepted(c, t.tau) && Symmetric(|c.values|, Entries(c.values))
      ensures !RatioStandardError(c, nt, dt, numerator, denominator, t.epsilon).InvalidVariance?
    {
      var n, d := Position(c.terms, nt), Position(c.terms, dt);
      if n >= 0 && d >= 0 {
        AcceptedVarianceWithin(t, c, n, d, numerator, denominator);
      }
    }
  }

  lemma AcceptedVarianceWithin(t: Tolerances, c: Covariance, n: nat, d: nat, numerator: real, denominator: real)
    requires ValidTolerances(t) && denominator != 0.0
    requires GradientsWithinTolerance(t, numerator, denominator)
    requires Accepted(c, t.tau) && Symmetric(|c.values|, Entries(c.values))
    requires n < |c.values| && d < |c.values|
    ensures var gn, gd := NumeratorGradient(denominator), DenominatorGradient(numerator, denominator);
            Variance(c.values, n, d, gn, gd) >= -t.epsilon
  {
    hide Square, Variance, Accepts;
    var gn, gd := NumeratorGradient(denominator), DenominatorGradient(numerator, denominator);
    assert Entries(c.values)(n, d) == Entries(c.values)(d, n);
    if numerator == 0.0 {
      assert gd == 0.0;
      ZeroNumeratorVariance(c.values, n, d, gn);
    } else {
      hide Slack, IsClose;
      VarianceBound(c, t.tau, n, d, gn, gd);
    }
  }

  lemma ZeroNumeratorVariance(values: seq<seq<real>>, n: nat, d: nat, gn: real)
    requires IsSquare(values) && n < |values| && d < |values| && values[n][n] >= 0.0
    ensures Variance(values, n, d, gn, 0.0) >= 0.0
  {
    assert Square(gn) >= 0.0;
  }

  /** Three terms that realise the worst case: eliminating the first, whose
      pivot is p, leaves the two others at curvature -tau. */
  function WorstCase(tau: real, p: real, u: real, v: real, s: real): Covariance {
    Covariance(["first", "numerator", "denominator"],
               [[p, p * u, p * v],
                [p * u, Weighted(p, u, u) - tau, Weighted(p, u, v) - tau * s],
                [p * v, Weighted(p, u, v) - tau * s, Weighted(p, v, v) - tau]])
  }

  function Weighted(p: real, u: real, v: real): real {
    p * u * v
  }

  function Sign(r: real): real {
    if r > 0.0 then 1.0 else -1.0
  }

  lemma LargeMultiplier(g: real, m: real) returns (t: real)
    requires g != 0.0 && m >= 0.0
    ensures t >= 0.0 && Square(t * g) >= m
  {
    t := (m + 1.0) / Abs(g);
    assert t * Abs(g) == m + 1.0;
    assert Square(t * g) == (t * Abs(g)) * (t * Abs(g));
    assert (m + 1.0) * (m + 1.0) == m * m + 2.0 * m + 1.0;
  }

  lemma LargerMultiplier(g: real, t: real, w: real, m: real)
    requires 0.0 <= t <= w && Square(t * g) >= m
    ensures Square(w * g) >= m
  {
    assert (w - t) * (w + t) >= 0.0 && Square(g) >= 0.0;
    assert ((w - t) * (w + t)) * Square(g) >= 0.0;
    assert Square(w * g) - Square(t * g) == ((w - t) * (w + t)) * Square(g);
  }

  /** A vector orthogonal to the gradient with both entries large. */
  lemma OrthogonalDirection(gn: real, gd: real, tau: real) returns (u: real, v: real)
    requires gn != 0.0 && gd != 0.0 && tau >= 0.0
    ensures gn * u + gd * v == 0.0 && Square(u) >= tau && Square(v) >= tau
  {
    var t0 := LargeMultiplier(gn, tau);
    var t1 := LargeMultiplier(gd, tau);
    var t := t0 + t1;
    LargerMultiplier(gn, t0, t, tau);
    LargerMultiplier(gd, t1, t, tau);
    u, v := t * gd, -(t * gn);
    NegatedSquare(t * gn);
  }

  lemma DiagonalStaysNonnegative(p: real, u: real, tau: real)
    requires p >= 1.0 && Square(u) >= tau
    ensures Weighted(p, u, u) - tau >= 0.0
  {
    assert p * u * u - u * u == (p - 1.0) * Square(u) >= 0.0;
  }

  lemma CancelPivot(p: real, u: real, v: real)
    requires p != 0.0
    ensures (p * u) * (p * v) / p == Weighted(p, u, v)
  {
    assert (p * u) * (p * v) == p * (p * u * v);
  }

  lemma WorstCaseEntries(tau: real, p: real, u: real, v: real, s: real)
    requires p != 0.0
    ensures var a := Entries(WorstCase(tau, p, u, v, s).values);
            a(0, 0) == p && RankOne(a, tau, Weighted(p, u, u), Weighted(p, u, v), Weighted(p, v, v), s)
  {
    CancelPivot(p, u, u);
    CancelPivot(p, v, v);
    CancelPivot(p, v, u);
    WeightedCommutes(p, u, v);
    hide Weighted;
  }

  lemma WeightedCommutes(p: real, u: real, v: real)
    ensures Weighted(p, u, v) == Weighted(p, v, u)
  {
  }

  /** Column 0 explains the trailing block up to -tau, with signs s off the diagonal. */
  ghost predicate RankOne(a: Mat, tau: real, xx: real, xy: real, yy: real, s: real)
  {
    && a(0, 0) != 0.0
    && a(1, 0) * a(1, 0) / a(0, 0) == xx && a(1, 1) == xx - tau
    && a(2, 0) * a(1, 0) / a(0, 0) == xy && a(2, 1) == xy - tau * s
    && a(2, 0) * a(2, 0) / a(0, 0) == yy && a(2, 2) == yy - tau
  }

  lemma WorstCaseAccepts(tau: real, p: real, u: real, v: real, s: real)
    requires tau >= 0.0 && p > tau && (s == 1.0 || s == -1.0)
    ensures Accepts(3, Entries(WorstCase(tau, p, u, v, s).values), 0, tau)
  {
    hide *;
    WorstCaseEntries(tau, p, u, v, s);
    RankOneAccepts(Entries(WorstCase(tau, p, u, v, s).values), tau, Weighted(p, u, u), Weighted(p, u, v),
                   Weighted(p, v, v), s);
  }

  lemma RankOneAccepts(a: Mat, tau: real, xx: real, xy: real, yy: real, s: real)
    requires tau >= 0.0 && a(0, 0) > tau && (s == 1.0 || s == -1.0)
    requires RankOne(a, tau, xx, xy, yy, s)
    ensures Accepts(3, a, 0, tau)
  {
    hide RankOne, Eliminate;
    RankOneEliminated(a, tau, xx, xy, yy, s);
    FlatAccepts(Eliminate(a, 0), tau, s);
  }

  lemma RankOneEliminated(a: Mat, tau: real, xx: real, xy: real, yy: real, s: real)
    requires RankOne(a, tau, xx, xy, yy, s)
    ensures a(0, 0) != 0.0
    ensures var e := Eliminate(a, 0); e(1, 1) == -tau && e(2, 2) == -tau && e(2, 1) == -(tau * s)
  {
  }

  lemma FlatAccepts(e: Mat, tau: real, s: real)
    requires tau >= 0.0 && (s == 1.0 || s == -1.0)
    requires e(1, 1) == -tau && e(2, 2) == -tau && e(2, 1) == -(tau * s)
    ensures Accepts(3, e, 1, tau)
  {
    assert Accepts(3, e, 3, tau);
    assert Accepts(3, e, 2, tau);
    assert ColumnBelowWithin(3, e, 1, tau);
  }

  lemma WorstCaseAccepted(tau: real, p: real, u: real, v: real, s: real)
    requires tau >= 0.0 && p == tau + 1.0 && (s == 1.0 || s == -1.0)
    requires Square(u) >= tau && Square(v) >= tau
    ensures var c := WorstCase(tau, p, u, v, s); Accepted(c, tau) && Symmetric(3, Entries(c.values))
  {
    hide Accepts, Square, Weighted;
    WorstCaseAccepts(tau, p, u, v, s);
    DiagonalStaysNonnegative(p, u, tau);
    DiagonalStaysNonnegative(p, v, tau);
    DistinctNames();
    var rows := WorstCase(tau, p, u, v, s).values;
    forall i, j | 0 <= i < 3 && 0 <= j < 3 ensures rows[i][j] == rows[j][i] && IsClose(rows[i][j], rows[j][i]) {
    }
  }

  lemma DistinctNames()
    ensures Distinct(["first", "numerator", "denominator"])
  {
    assert |"first"| == 5 && |"numerator"| == 9 && |"denominator"| == 11;
  }

  /** Along the gradient the first term cancels and only -tau remains. */
  lemma WorstCaseVariance(tau: real, p: real, u: real, v: real, gn: real, gd: real)
    requires gn * u + gd * v == 0.0
    ensures var c := WorstCase(tau, p, u, v, Sign(gn * gd));
            Variance(c.values, 1, 2, gn, gd) == -(tau * Square(Abs(gn) + Abs(gd)))
  {
    var s := Sign(gn * gd);
    var c := WorstCase(tau, p, u, v, s);
    WorstCaseReads(tau, p, u, v, s);
    hide WorstCase, Square;
    CancelNamed(tau, gn, gd, p, u, v, s, c.values[1][1], c.values[2][2], c.values[1][2]);
    SignedSquare(gn, gd, s);
  }

  lemma WorstCaseReads(tau: real, p: real, u: real, v: real, s: real)
    ensures var values := WorstCase(tau, p, u, v, s).values;
            && IsSquare(values) && |values| == 3
            && values[1][1] == p * u * u - tau && values[2][2] == p * v * v - tau && values[1][2] == p * u * v - tau * s
  {
  }

  lemma CancelNamed(tau: real, gn: real, gd: real, p: real, u: real, v: real, s: real, nn: real, dd: real, nd: real)
    requires gn * u + gd * v == 0.0
    requires nn == p * u * u - tau && dd == p * v * v - tau && nd == p * u * v - tau * s
    ensures Square(gn) * nn + Square(gd) * dd + 2.0 * gn * gd * nd
         == -(tau * (Square(gn) + Square(gd) + 2.0 * (s * (gn * gd))))
  {
    CancelFirstTerm(tau, gn, gd, p, u, v, s);
  }

  lemma SignedSquare(gn: real, gd: real, s: real)
    requires s == Sign(gn * gd)
    ensures Square(gn) + Square(gd) + 2.0 * (s * (gn * gd)) == Square(Abs(gn) + Abs(gd))
  {
    assert Square(Abs(gn) + Abs(gd)) == Square(gn) + Square(gd) + 2.0 * (Abs(gn) * Abs(gd));
    assert s * (gn * gd) == Abs(gn) * Abs(gd);
  }

  lemma CancelFirstTerm(tau: real, gn: real, gd: real, p: real, u: real, v: real, s: real)
    requires gn * u + gd * v == 0.0
    ensures Square(gn) * (p * u * u - tau) + Square(gd) * (p * v * v - tau) + 2.0 * gn * gd * (p * u * v - tau * s)
         == -(tau * (Square(gn) + Square(gd) + 2.0 * (s * (gn * gd))))
  {
    var w := gn * u + gd * v;
    assert w * w == gn * gn * u * u + gd * gd * v * v + 2.0 * (gn * gd * u * v);
    assert p * (w * w) == p * (gn * gn * u * u) + p * (gd * gd * v * v) + 2.0 * (p * (gn * gd * u * v));
    assert Square(gn) * (p * u * u - tau) == p * (gn * gn * u * u) - tau * Square(gn);
    assert Square(gd) * (p * v * v - tau) == p * (gd * gd * v * v) - tau * Square(gd);
    assert 2.0 * gn * gd * (p * u * v - tau * s) == 2.0 * (p * (gn * gd * u * v)) - tau * (2.0 * (s * (gn * gd)));
  }

  lemma BeyondToleranceCanBeInvalid(t: Tolerances, numerator: real, denominator: real)
    requires ValidTolerances(t) && denominator != 0.0
    requires !GradientsWithinTolerance(t, numerator, denominator)
    ensures !NeverInvalid(t, numerator, denominator)
  {
    hide Accepts, Square, WorstCase, Accepted, Variance;
    var gn, gd := NumeratorGradient(denominator), DenominatorGradient(numerator, denominator);
    NonzeroGradients(numerator, denominator);
    var u, v := OrthogonalDirection(gn, gd, t.tau);
    var p, s := t.tau + 1.0, Sign(gn * gd);
    WorstCaseAccepted(t.tau, p, u, v, s);
    WorstCaseVariance(t.tau, p, u, v, gn, gd);
    WorstCasePositions(t.tau, p, u, v, s);
    var c := WorstCase(t.tau, p, u, v, s);
    assert RatioStandardError(c, "numerator", "denominator", numerator, denominator, t.epsilon).InvalidVariance?;
  }

  lemma WorstCasePositions(tau: real, p: real, u: real, v: real, s: real)
    ensures var c := WorstCase(tau, p, u, v, s);
            |c.values| == |c.terms| == 3 && IsSquare(c.values) &&
            Position(c.terms, "numerator") == 1 && Position(c.terms, "denominator") == 2
  {
    var terms := ["first", "numerator", "denominator"];
    assert terms[..2] == ["first", "numerator"];
    assert "numerator" != "denominator" by { assert |"numerator"| != |"denominator"|; }
  }

  lemma NonzeroGradients(numerator: real, denominator: real)
    requires numerator != 0.0 && denominator != 0.0
    ensures NumeratorGradient(denominator) != 0.0 && DenominatorGradient(numerator, denominator) != 0.0
  {
    var q := denominator * denominator;
    assert q != 0.0;
    assert (numerator / q) * q == numerator;
    assert (-1.0 / denominator) * denominator == -1.0;
  }

  /** For every ratio, the invalid-variance error is unreachable over all exactly
      symmetric accepted covariances if and only if the numerator is zero or the
      gradients are small against the two tolerances. */
  lemma NeverInvalidExactly(t: Tolerances, numerator: real, denominator: real)
    requires ValidTolerances(t) && denominator != 0.0
    ensures NeverInvalid(t, numerator, denominator) <==> GradientsWithinTolerance(t, numerator, denominator)
  {
    if GradientsWithinTolerance(t, numerator, denominator) {
      WithinToleranceNeverInvalid(t, numerator, denominator);
    } else {
      BeyondToleranceCanBeInvalid(t, numerator, denominator);
    }
  }

  /** With the shipped tolerances the ratio 1/1 can fail on an accepted covariance. */
  lemma ShippedTolerancesCanFail()
    ensures ValidTolerances(SHIPPED) && !NeverInvalid(SHIPPED, 1.0, 1.0)
  {
    NeverInvalidExactly(SHIPPED, 1.0, 1.0);
  }

  // ------------------------------------------ entries that are only nearly symmetric

  /** No accepted covariance at all makes this ratio's variance invalid. */
  ghost predicate NeverInvalidForAny(t: Tolerances, numerator: real, denominator: real)
    requires ValidTolerances(t)
  {
    forall c: Covariance, nt: string, dt: string | Accepted(c, t.tau) ::
      !RatioStandardError(c, nt, dt, numerator, denominator, t.epsilon).InvalidVariance?
  }

  /** A flat covariance whose upper entry is off by the closeness test's full margin. */
  function NearlySymmetric(x: real, y: real, z: real): Covariance {
    Covariance(["numerator", "denominator"], [[x, -(y * 1.000000001)], [-y, z]])
  }

  lemma NearlySymmetricAccepts(x: real, y: real, z: real, tau: real)
    requires tau >= 0.0 && x > tau && y * y == z * x
    ensures Accepts(2, Entries(NearlySymmetric(x, y, z).values), 0, tau)
  {
    var a := Entries(NearlySymmetric(x, y, z).values);
    assert a(0, 0) == x && a(1, 0) == -y && a(1, 1) == z;
    FlatQuotient(x, y, z);
    assert Eliminate(a, 0)(1, 1) == 0.0;
    assert Accepts(2, Eliminate(a, 0), 2, tau) && Accepts(2, Eliminate(a, 0), 1, tau);
  }

  lemma FlatQuotient(x: real, y: real, z: real)
    requires x != 0.0 && y * y == z * x
    ensures (-y) * (-y) / x == z
  {
    assert (-y) * (-y) == z * x;
  }

  lemma NearlySymmetricAccepted(x: real, y: real, z: real, tau: real)
    requires tau >= 0.0 && x > tau && z >= 0.0 && y * y == z * x
    ensures Accepted(NearlySymmetric(x, y, z), tau)
  {
    hide Accepts;
    NearlySymmetricAccepts(x, y, z, tau);
    assert |"numerator"| != |"denominator"|;
    var rows := NearlySymmetric(x, y, z).values;
    forall i, j | 0 <= i < 2 && 0 <= j < 2 ensures IsClose(rows[i][j], rows[j][i]) {
      WithinMargin(y);
    }
  }

  lemma WithinMargin(y: real)
    ensures IsClose(-(y * 1.000000001), -y) && IsClose(-y, -(y * 1.000000001))
  {
  }

  lemma NearlySymmetricVariance(gn: real, gd: real, u: real, v: real, m: real)
    requires gn * u == 1.0 && gd * v == 1.0
    ensures Variance(NearlySymmetric(m * (u * u), m * (u * v), m * (v * v)).values, 0, 1, gn, gd) == -(0.000000002 * m)
  {
    var x, y, z := m * (u * u), m * (u * v), m * (v * v);
    ScaledOne(gn, gn, u, u, m);
    ScaledOne(gd, gd, v, v, m);
    ScaledOne(gn, gd, u, v, m);
    MarginFactor(gn, gd, y);
  }

  lemma ScaledOne(p: real, q: real, u: real, v: real, m: real)
    requires p * u == 1.0 && q * v == 1.0
    ensures (p * q) * (m * (u * v)) == m
  {
    calc {
      (p * q) * (m * (u * v));
      { RegroupFour(p, q, u, v, m); }
      (m * (p * u)) * (q * v);
      m * (p * u);
      m;
    }
  }

  lemma RegroupFour(p: real, q: real, u: real, v: real, m: real)
    ensures (p * q) * (m * (u * v)) == (m * (p * u)) * (q * v)
  {
  }

  lemma MarginFactor(p: real, q: real, y: real)
    ensures 2.0 * p * q * -(y * 1.000000001) == -(2.000000002 * ((p * q) * y))
  {
  }

  lemma LargeEnough(gn: real, u: real, tau: real, m: real)
    requires gn * u == 1.0 && tau >= 0.0 && m >= (tau + 1.0) * Square(gn)
    ensures m * (u * u) > tau
  {
    assert (m - (tau + 1.0) * Square(gn)) * (u * u) >= 0.0;
    assert (tau + 1.0) * Square(gn) * (u * u) == (tau + 1.0) * ((gn * u) * (gn * u)) == tau + 1.0;
  }

  lemma FlatProduct(m: real, u: real, v: real)
    ensures (m * (u * v)) * (m * (u * v)) == (m * (v * v)) * (m * (u * u))
  {
  }

  lemma NonzeroNumeratorCanBeInvalid(t: Tolerances, numerator: real, denominator: real)
    requires ValidTolerances(t) && denominator != 0.0 && numerator != 0.0
    ensures !NeverInvalidForAny(t, numerator, denominator)
  {
    hide Accepts, Accepted, Variance, Square, NearlySymmetric;
    var gn, gd := NumeratorGradient(denominator), DenominatorGradient(numerator, denominator);
    NonzeroGradients(numerator, denominator);
    var u, v := 1.0 / gn, 1.0 / gd;
    SquareNonnegative(gn);
    var m := 1000000000.0 * (t.epsilon + 1.0) + (t.tau + 1.0) * Square(gn);
    assert (t.tau + 1.0) * Square(gn) >= 0.0;
    LargeEnough(gn, u, t.tau, m);
    FlatProduct(m, u, v);
    SquareNonnegative(v);
    NonnegativeProduct(m, Square(v));
    SquareIs(v);
    NearlySymmetricAccepted(m * (u * u), m * (u * v), m * (v * v), t.tau);
    NearlySymmetricVariance(gn, gd, u, v, m);
    var c := NearlySymmetric(m * (u * u), m * (u * v), m * (v * v));
    NearlySymmetricShape(m * (u * u), m * (u * v), m * (v * v));
    assert RatioStandardError(c, "numerator", "denominator", numerator, denominator, t.epsilon).InvalidVariance?;
  }

  lemma SquareIs(v: real)
    ensures Square(v) == v * v
  {
  }

  lemma NearlySymmetricShape(x: real, y: real, z: real)
    ensures var c := NearlySymmetric(x, y, z);
            |c.values| == |c.terms| == 2 && IsSquare(c.values) &&
            Position(c.terms, "numerator") == 0 && Position(c.terms, "denominator") == 1
  {
    var terms := ["numerator", "denominator"];
    assert terms[..1] == ["numerator"];
    assert "numerator" != "denominator" by { assert |"numerator"| != |"denominator"|; }
  }

  /** Over everything the validators accept, entries that agree only within the
      closeness test included, the error is unreachable exactly for a zero numerator:
      no tolerance on the pivots can exclude it otherwise. */
  lemma NeverInvalidForAnyExactly(t: Tolerances, numerator: real, denominator: real)
    requires ValidTolerances(t) && denominator != 0.0
    ensures NeverInvalidForAny(t, numerator, denominator) <==> numerator == 0.0
  {
    hide Accepts, Variance, IsClose;
    if numerator == 0.0 {
      forall c: Covariance, nt: string, dt: string | Accepted(c, t.tau)
        ensures !RatioStandardError(c, nt, dt, numerator, denominator, t.epsilon).InvalidVariance?
      {
        var n, d := Position(c.terms, nt), Position(c.terms, dt);
        assert DenominatorGradient(numerator, denominator) == 0.0;
        if n >= 0 && d >= 0 {
          ZeroNumeratorVariance(c.values, n, d, NumeratorGradient(denominator));
        }
      }
    } else {
      NonzeroNumeratorCanBeInvalid(t, numerator, denominator);
    }
  }
}
