/** Jacobi eigenvalue iteration and the condition number built on it
    (src/envresearch/econometrics/_valuation_diagnostics.py, lines 222-232, 288-311). */
module Jacobi {
  import opened Reals
  import opened Sums
  import opened Quadratic
  import opened Rotation
  import opened Spectra
  import opened Extremes

  // ------------------------------------------------- what every iteration keeps

  /** Everything about a that the chain of rotations leaves in b: the two are
      orthogonally similar through the chain. */
  ghost predicate Conserved(n: nat, a: Mat, b: Mat, turns: seq<Turn>) {
    && Symmetric(n, b)
    && Trace(n, b) == Trace(n, a)
    && Frobenius(n, b) == Frobenius(n, a)
    && AreTurns(n, turns)
    && Similar(n, a, b, turns)
  }

  lemma ConservedReflexive(n: nat, a: Mat)
    requires Symmetric(n, a)
    ensures Conserved(n, a, a, [])
  {
    SimilarItself(n, a);
  }

  lemma RotatedConserved(n: nat, start: Mat, a: Mat, turns: seq<Turn>, l: int, r: int, c: real, s: real)
    requires Rotatable(n, a, l, r, c, s) && Conserved(n, start, a, turns)
    ensures Conserved(n, start, Rotated(a, l, r, c, s), turns + [Turn(l, r, c, s)])
  {
    hide Trace, Frobenius, Rotated, Symmetric, Similar, AreTurns;
    RotatedSymmetric(n, a, l, r, c, s);
    RotatedTrace(n, a, l, r, c, s);
    RotatedFrobenius(n, a, l, r, c, s);
    SimilarStep(n, start, a, turns, l, r, c, s);
  }

  /** A form that is never negative stays so; in particular on the diagonal. */
  lemma ConservedSemidefinite(n: nat, a: Mat, b: Mat, turns: seq<Turn>)
    requires Conserved(n, a, b, turns) && PositiveSemidefinite(n, a)
    ensures PositiveSemidefinite(n, b)
    ensures forall i | 0 <= i < n :: b(i, i) >= 0.0
  {
    hide Quad, Similar, AreTurns, Trace, Frobenius;
    forall x: Vec ensures Quad(n, b, x) >= 0.0 {
      SimilarForm(n, a, b, turns, x);
    }
    forall i | 0 <= i < n ensures b(i, i) >= 0.0 {
      QuadUnit(n, b, i);
    }
  }

  /** Each diagonal entry is the form of a at a unit vector, whatever is left off it. */
  lemma DiagonalAttained(n: nat, a: Mat, b: Mat, turns: seq<Turn>, i: nat)
    requires Conserved(n, a, b, turns) && i < n
    ensures var v := Along(turns, Unit(i)); Dot(n, v, v) == 1.0 && Quad(n, a, v) == b(i, i)
  {
    hide Quad, Dot, Similar, AreTurns, Trace, Frobenius;
    Orthonormal(n, turns, i, i);
    SimilarForm(n, a, b, turns, Unit(i));
    QuadUnit(n, b, i);
  }

  /** The diagonal of b, in order. */
  ghost predicate ListsDiagonal(n: nat, b: Mat, values: seq<real>) {
    |values| == n && forall i | 0 <= i < n :: values[i] == b(i, i)
  }

  /** With nothing left off the diagonal, the values listed are exactly the
      eigenvalues of the start. */
  lemma DiagonalListsEigenvalues(n: nat, a: Mat, b: Mat, turns: seq<Turn>, values: seq<real>)
    requires Conserved(n, a, b, turns) && ListsDiagonal(n, b, values) && IsDiagonal(n, b)
    ensures forall lambda :: IsEigenvalue(n, a, lambda) <==> lambda in values
  {
    hide Similar, AreTurns, Trace, Frobenius, IsEigenpair;
    forall lambda ensures IsEigenvalue(n, a, lambda) <==> lambda in values {
      if IsEigenvalue(n, a, lambda) {
        var v: Vec :| IsEigenpair(n, a, lambda, v);
        var i := EigenvalueIsDiagonal(n, a, b, turns, lambda, v);
        assert values[i] == lambda;
      }
      if lambda in values {
        var i: nat :| i < n && values[i] == lambda;
        DiagonalIsEigenvalue(n, a, b, turns, i);
      }
    }
  }

  /** With every other entry within the tolerance, the form of the start on unit
      vectors stays between the extreme values listed, up to n times the tolerance. */
  lemma ValuesBoundForm(n: nat, a: Mat, b: Mat, turns: seq<Turn>, values: seq<real>, tolerance: real, y: Vec)
    requires Conserved(n, a, b, turns) && ListsDiagonal(n, b, values) && n > 0
    requires tolerance >= 0.0 && NearlyDiagonal(n, b, tolerance) && Dot(n, y, y) == 1.0
    ensures Least(values) - n as real * tolerance <= Quad(n, a, y) <= Greatest(values) + n as real * tolerance
  {
    hide Similar, AreTurns, Trace, Frobenius, NearlyDiagonal, Dot, Quad;
    forall i | 0 <= i < n ensures Least(values) <= b(i, i) <= Greatest(values) {
      assert values[i] in values;
    }
    FormWithinExtremes(n, a, b, turns, tolerance, Least(values), Greatest(values), y);
  }

  // ---------------------------------------------------------------- convergence

  function Power(b: real, e: nat): real {
    if e == 0 then 1.0 else b * Power(b, e - 1)
  }

  /** After k rotations the off-diagonal part is at most ((N-2)/N)^k of the start. */
  ghost predicate Shrunk(n: nat, start: Mat, a: Mat, k: nat) {
    var pairs := (n * (n - 1)) as real;
    Power(pairs, k) * Off(n, a) <= Power(pairs - 2.0, k) * Off(n, start)
  }

  lemma {:induction false} PowerNonnegative(b: real, e: nat)
    requires b >= 0.0
    ensures Power(b, e) >= 0.0
  {
    if e > 0 {
      PowerNonnegative(b, e - 1);
    }
  }

  lemma PairsAtLeastTwo(n: nat)
    requires n >= 2
    ensures (n * (n - 1)) as real >= 2.0
  {
    assert n * (n - 1) >= 2;
  }

  lemma ShrunkAtStart(n: nat, start: Mat)
    ensures Shrunk(n, start, start, 0)
  {
  }

  lemma RotatedShrunk(n: nat, start: Mat, a: Mat, l: int, r: int, c: real, s: real, k: nat)
    requires Rotatable(n, a, l, r, c, s) && LargestPair(n, a, l, r) && Shrunk(n, start, a, k)
    ensures Shrunk(n, start, Rotated(a, l, r, c, s), k + 1)
  {
    hide Off, Rotated;
    var pairs := (n * (n - 1)) as real;
    RotatedOffShrinks(n, a, l, r, c, s);
    PairsAtLeastTwo(n);
    PowerNonnegative(pairs, k);
    ChainShrink(pairs, Power(pairs, k), Power(pairs - 2.0, k), Off(n, Rotated(a, l, r, c, s)), Off(n, a),
                Off(n, start));
  }

  lemma ChainShrink(p: real, pk: real, qk: real, after: real, before: real, start: real)
    requires p * after <= (p - 2.0) * before && pk * before <= qk * start && pk >= 0.0 && p >= 2.0
    ensures (p * pk) * after <= ((p - 2.0) * qk) * start
  {
    assert pk * (p * after) <= pk * ((p - 2.0) * before);
    assert (p - 2.0) * (pk * before) <= (p - 2.0) * (qk * start);
    assert (p * pk) * after == pk * (p * after);
    assert pk * ((p - 2.0) * before) == (p - 2.0) * (pk * before);
    assert ((p - 2.0) * qk) * start == (p - 2.0) * (qk * start);
  }

  // ------------------------------------------------------- the limit is enough

  lemma {:induction false} PowerPositive(b: real, e: nat)
    requires b > 0.0
    ensures Power(b, e) > 0.0
  {
    if e > 0 {
      PowerPositive(b, e - 1);
      PositiveProduct(b, Power(b, e - 1));
    }
  }

  lemma {:induction false} PowerMonotone(b: real, c: real, e: nat)
    requires 0.0 <= b <= c
    ensures Power(b, e) <= Power(c, e)
  {
    if e > 0 {
      PowerMonotone(b, c, e - 1);
      PowerNonnegative(b, e - 1);
      ProductMonotone(b, c, Power(b, e - 1), Power(c, e - 1));
    }
  }

  lemma ProductMonotone(u: real, v: real, p: real, q: real)
    requires 0.0 <= u <= v && 0.0 <= p <= q
    ensures u * p <= v * q
  {
    NonnegativeProduct(u, q - p);
    NonnegativeProduct(v - u, q);
  }

  /** Bernoulli: (q + 2)^e >= q^e + 2 e q^(e-1). */
  lemma {:induction false} Bernoulli(q: real, e: nat)
    requires q >= 0.0 && e > 0
    ensures Power(q + 2.0, e) >= Power(q, e) + 2.0 * (e as real * Power(q, e - 1))
  {
    if e > 1 {
      Bernoulli(q, e - 1);
      PowerNonnegative(q, e - 1);
      PowerNonnegative(q, e - 2);
      BernoulliStep(q, (e - 1) as real, Power(q + 2.0, e - 1), Power(q, e - 1), Power(q, e - 2));
      assert e as real == (e - 1) as real + 1.0;
    }
  }

  lemma BernoulliStep(q: real, e: real, wide: real, power: real, below: real)
    requires q >= 0.0 && e >= 0.0 && below >= 0.0 && power == q * below && wide >= power + 2.0 * (e * below)
    ensures (q + 2.0) * wide >= q * power + 2.0 * ((e + 1.0) * power)
  {
    NonnegativeProduct(q + 2.0, wide - (power + 2.0 * (e * below)));
    NonnegativeProduct(e, below);
    assert q * (e * below) == e * power;
    assert (q + 2.0) * (power + 2.0 * (e * below)) == q * power + 2.0 * power + 2.0 * (e * power) + 4.0 * (e * below);
  }

  /** As many steps as there are pairs shrink the bound at least threefold. */
  lemma ThreeTimes(q: real, p: nat)
    requires q >= 0.0 && p as real == q + 2.0
    ensures Power(q + 2.0, p) >= 3.0 * Power(q, p)
  {
    Bernoulli(q, p);
    PowerNonnegative(q, p - 1);
    assert (q + 2.0) * Power(q, p - 1) == Power(q, p) + 2.0 * Power(q, p - 1);
  }

  lemma {:induction false} PowerAdds(b: real, d: nat, e: nat)
    ensures Power(b, d + e) == Power(b, d) * Power(b, e)
  {
    if d > 0 {
      PowerAdds(b, d - 1, e);
      assert b * (Power(b, d - 1) * Power(b, e)) == (b * Power(b, d - 1)) * Power(b, e);
    }
  }

  /** k steps shrink the bound at least 3^c times. */
  ghost predicate Thrices(q: real, k: nat, c: nat) {
    Power(q + 2.0, k) >= Power(3.0, c) * Power(q, k)
  }

  /** c rounds of that many steps shrink it 3^c times. */
  lemma {:induction false} Rounds(q: real, p: nat, c: nat)
    requires q >= 0.0 && p as real == q + 2.0
    ensures Thrices(q, c * p, c)
  {
    if c > 0 {
      Rounds(q, p, c - 1);
      OneRound(q, p, (c - 1) * p, c - 1);
      assert (c - 1) * p + p == c * p;
    }
  }

  lemma OneRound(q: real, p: nat, k: nat, c: nat)
    requires q >= 0.0 && p as real == q + 2.0 && Thrices(q, k, c)
    ensures Thrices(q, k + p, c + 1)
  {
    assert Power(3.0, c + 1) == 3.0 * Power(3.0, c);
    hide Power;
    ThreeTimes(q, p);
    PowerAdds(q + 2.0, k, p);
    PowerAdds(q, k, p);
    PowerNonnegative(q, p);
    PowerNonnegative(3.0, c);
    PowerNonnegative(q, k);
    RoundStep(Power(q + 2.0, p), Power(q, p), Power(q + 2.0, k), Power(3.0, c), Power(q, k),
              Power(q + 2.0, k + p), Power(3.0, c + 1), Power(q, k + p));
  }

  lemma RoundStep(wide: real, power: real, wides: real, threes: real, powers: real,
                  allWide: real, allThrees: real, allPowers: real)
    requires power >= 0.0 && threes >= 0.0 && powers >= 0.0
    requires wide >= 3.0 * power && wides >= threes * powers
    requires allWide == wides * wide && allThrees == 3.0 * threes && allPowers == powers * power
    ensures allWide >= allThrees * allPowers
  {
    NonnegativeProduct(threes, powers);
    ProductMonotone(3.0 * power, wide, threes * powers, wides);
    assert (3.0 * power) * (threes * powers) == (3.0 * threes) * (power * powers);
  }

  /** Steps beyond whole rounds only help. */
  lemma MoreSteps(q: real, c: nat, k: nat, more: nat)
    requires q >= 0.0 && Thrices(q, k, c)
    ensures Thrices(q, k + more, c)
  {
    hide Power;
    PowerAdds(q + 2.0, k, more);
    PowerAdds(q, k, more);
    PowerMonotone(q, q + 2.0, more);
    PowerNonnegative(q, more);
    PowerNonnegative(3.0, c);
    PowerNonnegative(q, k);
    NonnegativeProduct(Power(3.0, c), Power(q, k));
    ProductMonotone(Power(3.0, c) * Power(q, k), Power(q + 2.0, k), Power(q, more), Power(q + 2.0, more));
    Reassociate(Power(3.0, c), Power(q, k), Power(q, more), Power(q, k + more));
  }

  lemma Reassociate(u: real, v: real, w: real, vw: real)
    requires vw == v * w
    ensures (u * v) * w == u * vw
  {
  }

  const ROUNDS: nat := 100

  /** A run that uses up its iterations has shrunk the off-diagonal sum 3^100 times. */
  lemma LimitShrinks(n: nat, start: Mat, a: Mat)
    requires n >= 2 && Shrunk(n, start, a, IterationLimit(n))
    ensures Power(3.0, ROUNDS) * Off(n, a) <= Off(n, start)
  {
    hide Off, Power;
    var p, k := n * (n - 1), IterationLimit(n);
    var q := p as real - 2.0;
    PairsAtLeastTwo(n);
    LimitCoversRounds(n);
    OffNonnegative(n, start);
    Rounds(q, p, ROUNDS);
    MoreSteps(q, ROUNDS, ROUNDS * p, k - ROUNDS * p);
    PowerPositive(q + 2.0, k);
    PowerPositive(3.0, ROUNDS);
    assert q + 2.0 == p as real;
    CancelPower(Power(q + 2.0, k), Power(q, k), Power(3.0, ROUNDS), Off(n, a), Off(n, start));
  }

  lemma LimitCoversRounds(n: nat)
    requires n >= 2
    ensures IterationLimit(n) >= ROUNDS * (n * (n - 1))
  {
    assert 100 * n * n == 100 * (n * (n - 1)) + 100 * n;
  }

  lemma CancelPower(wide: real, power: real, threes: real, after: real, before: real)
    requires wide > 0.0 && before >= 0.0 && wide >= threes * power && wide * after <= power * before && threes >= 0.0
    ensures threes * after <= before
  {
    NonnegativeProduct(threes, power * before - wide * after);
    NonnegativeProduct(wide - threes * power, before);
    assert threes * (power * before) == (threes * power) * before;
    assert threes * (wide * after) == wide * (threes * after);
    if threes * after > before {
      PositiveProduct(wide, threes * after - before);
    }
  }

  lemma RowSquaresAt(n: nat, a: Mat, i: nat)
    ensures RowSquares(n, a)(i) >= 0.0
    ensures forall j | 0 <= j < n :: Square(a(i, j)) <= RowSquares(n, a)(i)
  {
    hide Sum;
    forall j | 0 <= j < n ensures Squares(Row(a, i))(j) == Square(a(i, j)) >= 0.0 {
      SquareNonnegative(a(i, j));
    }
    SumNonnegative(0, n, Squares(Row(a, i)));
    forall j | 0 <= j < n ensures Square(a(i, j)) <= RowSquares(n, a)(i) {
      SumAtLeastOne(n, j, Squares(Row(a, i)));
    }
  }

  lemma OffNonnegative(n: nat, a: Mat)
    ensures Off(n, a) >= 0.0
  {
    hide Sum, RowSquares;
    forall i | 0 <= i < n ensures RowSquares(n, OffDiagonal(a))(i) >= 0.0 {
      RowSquaresAt(n, OffDiagonal(a), i);
    }
    SumNonnegative(0, n, RowSquares(n, OffDiagonal(a)));
  }

  /** Each entry off the diagonal is in the sum twice. */
  lemma PairInOff(n: nat, a: Mat, i: nat, j: nat)
    requires Symmetric(n, a) && i < j < n
    ensures 2.0 * Square(a(i, j)) <= Off(n, a)
  {
    hide Sum, RowSquares;
    var b := OffDiagonal(a);
    forall p | 0 <= p < n ensures RowSquares(n, b)(p) >= 0.0 {
      RowSquaresAt(n, b, p);
    }
    SumAtLeastTwo(n, i, j, RowSquares(n, b));
    RowSquaresAt(n, b, i);
    RowSquaresAt(n, b, j);
    assert b(i, j) == a(i, j) == b(j, i);
  }

  /** The off-diagonal sum that the iteration limit reaches from. */
  ghost predicate WithinReach(n: nat, start: Mat, eps: real) {
    Off(n, start) < Power(3.0, ROUNDS) * (2.0 * Square(eps))
  }

  /** From within reach every run, cut off by the limit or not, ends with everything
      off the diagonal below the tolerance. */
  lemma EndsNearlyDiagonal(n: nat, start: Mat, a: Mat, eps: real)
    requires Symmetric(n, a) && eps >= 0.0 && WithinReach(n, start, eps)
    requires Shrunk(n, start, a, IterationLimit(n))
    ensures forall i, j | 0 <= i < j < n :: Abs(a(i, j)) < eps
  {
    hide Off, Power, Shrunk, IterationLimit;
    forall i, j | 0 <= i < j < n ensures Abs(a(i, j)) < eps {
      LimitShrinks(n, start, a);
      PairInOff(n, a, i, j);
      PowerPositive(3.0, ROUNDS);
      CancelThrees(Power(3.0, ROUNDS), Off(n, a), Off(n, start), 2.0 * Square(eps));
      SmallerSquare(a(i, j), eps);
    }
  }

  lemma CancelThrees(threes: real, after: real, before: real, bound: real)
    requires threes > 0.0 && threes * after <= before < threes * bound
    ensures after < bound
  {
    if after >= bound {
      NonnegativeProduct(threes, after - bound);
    }
  }

  lemma SmallerSquare(u: real, v: real)
    requires v >= 0.0 && Square(u) < Square(v)
    ensures Abs(u) < v
  {
    if Abs(u) >= v {
      AbsSquares(v, u);
    }
  }

  // ------------------------------------------------------------------ the loops

  /** (p, q) comes before (i, j) in the order the pairs are generated. */
  predicate Before(p: int, q: int, i: int, j: int) {
    p < i || (p == i && q < j)
  }

  /** The first pair above the diagonal with the largest absolute entry, or
      (0, 0) when there is no pair. */
  method FindLargestPair(m: array2<real>) returns (left: nat, right: nat)
    requires m.Length0 == m.Length1
    ensures m.Length0 < 2 ==> left == right == 0
    ensures m.Length0 >= 2 ==> left < right < m.Length0
    ensures m.Length0 >= 2 ==> forall i, j | 0 <= i < j < m.Length0 :: Abs(m[i, j]) <= Abs(m[left, right])
    ensures m.Length0 >= 2 ==>
              forall i, j | 0 <= i < j < m.Length0 && Before(i, j, left, right) :: Abs(m[i, j]) < Abs(m[left, right])
  {
    var n := m.Length0;
    left, right := 0, 0;
    for i := 0 to n
      invariant left == right == 0 || left < right < n
      invariant left == right == 0 ==> i == 0 || n < 2
      invariant left < right ==> forall p, q | 0 <= p < i && p < q < n :: Abs(m[p, q]) <= Abs(m[left, right])
      invariant left < right ==> left < i || (i == 0 && n < 2)
      invariant left < right ==>
                  forall p, q | 0 <= p < q < n && Before(p, q, left, right) :: Abs(m[p, q]) < Abs(m[left, right])
    {
      for j := i + 1 to n
        invariant left == right == 0 || left < right < n
        invariant left == right == 0 ==> (i == 0 && j == 1) || n < 2
        invariant left < right ==> forall p, q | 0 <= p < i && p < q < n :: Abs(m[p, q]) <= Abs(m[left, right])
        invariant left < right ==> forall q | i < q < j :: Abs(m[i, q]) <= Abs(m[left, right])
        invariant left < right ==> Before(left, right, i, j)
        invariant left < right ==>
                    forall p, q | 0 <= p < q < n && Before(p, q, left, right) :: Abs(m[p, q]) < Abs(m[left, right])
      {
        if left == right || Abs(m[i, j]) > Abs(m[left, right]) {
          left, right := i, j;
        }
      }
    }
  }

  lemma RotatedCells(a: Mat, l: nat, r: nat, c: real, s: real, i: nat)
    requires l < r && i != l && i != r
    ensures var b := Rotated(a, l, r, c, s);
            b(i, l) == b(l, i) == c * a(i, l) - s * a(i, r) && b(i, r) == b(r, i) == s * a(i, l) + c * a(i, r)
  {
  }

  /** The pair's own block is done and the others up to index are. */
  function PartlyRotated(a: Mat, b: Mat, l: nat, r: nat, index: nat): Mat {
    (i, j) =>
      if (i == l || i == r) && (j == l || j == r) then b(i, j)
      else if ((i == l || i == r) && j < index) || ((j == l || j == r) && i < index) then b(i, j)
      else a(i, j)
  }

  lemma FullyRotated(n: nat, a: Mat, l: nat, r: nat, c: real, s: real)
    requires l < r < n
    ensures var b := Rotated(a, l, r, c, s);
            forall i, j | 0 <= i < n && 0 <= j < n :: PartlyRotated(a, b, l, r, n)(i, j) == b(i, j)
  {
  }

  /** The two-by-two block of the pair itself. */
  method RotateBlock(m: array2<real>, n: nat, ghost a: Mat, l: nat, r: nat, c: real, s: real)
    requires l < r < n && Holds(m, n, a)
    modifies m
    ensures Holds(m, n, PartlyRotated(a, Rotated(a, l, r, c, s), l, r, 0))
  {
    hide NewLeft, NewRight;
    var ll, rr, lr := m[l, l], m[r, r], m[l, r];
    m[l, l] := NewLeft(c, s, ll, lr, rr);
    m[r, r] := NewRight(c, s, ll, lr, rr);
    m[l, r] := 0.0;
    m[r, l] := 0.0;
  }

  /** The four cells that tie one other index to the pair. */
  method RotateIndex(m: array2<real>, n: nat, ghost a: Mat, ghost b: Mat, l: nat, r: nat, c: real, s: real, index: nat)
    requires l < r < n && index < n && index != l && index != r
    requires Holds(m, n, PartlyRotated(a, b, l, r, index))
    requires b(index, l) == b(l, index) == c * a(index, l) - s * a(index, r)
    requires b(index, r) == b(r, index) == s * a(index, l) + c * a(index, r)
    modifies m
    ensures Holds(m, n, PartlyRotated(a, b, l, r, index + 1))
  {
    var il, ir := m[index, l], m[index, r];
    var newLeft, newRight := c * il - s * ir, s * il + c * ir;
    assert newLeft == b(index, l) && newRight == b(index, r);
    m[index, l] := newLeft;
    m[l, index] := newLeft;
    m[index, r] := newRight;
    m[r, index] := newRight;
  }

  /** The cell updates of one rotation, in the source's order. */
  method RotateInPlace(m: array2<real>, n: nat, ghost a: Mat, l: nat, r: nat, c: real, s: real)
    requires l < r < n && Holds(m, n, a)
    modifies m
    ensures Holds(m, n, Rotated(a, l, r, c, s))
  {
    ghost var b := Rotated(a, l, r, c, s);
    FullyRotated(n, a, l, r, c, s);
    RotateBlock(m, n, a, l, r, c, s);
    hide Rotated;
    for index := 0 to n
      invariant Holds(m, n, PartlyRotated(a, b, l, r, index))
    {
      if index != l && index != r {
        RotatedCells(a, l, r, c, s, index);
        RotateIndex(m, n, a, b, l, r, c, s, index);
      }
    }
  }

  type Angle = (real, real, real) -> (real, real)

  /** The cosine and sine returned for (ll, lr, rr) always annihilate lr. */
  ghost predicate Annihilates(angle: Angle) {
    forall ll, lr, rr :: IsRotation(angle(ll, lr, rr).0, angle(ll, lr, rr).1, ll, lr, rr)
  }

  function IterationLimit(n: nat): nat {
    if n == 0 then 1 else 100 * n * n
  }

  /** The whole iteration.  It is orthogonally similar to its start through the
      rotations made; it stops at the limit or below the tolerance, and below it
      whenever the start is within reach; the values are exactly the eigenvalues once
      nothing is left off the diagonal, and bound the form of the start on unit vectors
      up to the tolerance, or up to whatever larger eps the limit reaches. */
  method SymmetricEigenvalues(m: array2<real>, ghost start: Mat, tolerance: real, angle: Angle)
    returns (eigenvalues: seq<real>, ghost final: Mat, ghost turns: seq<Turn>)
    requires m.Length0 == m.Length1 && Holds(m, m.Length0, start) && Symmetric(m.Length0, start)
    requires tolerance >= 0.0 && Annihilates(angle)
    modifies m
    ensures Holds(m, m.Length0, final)
    ensures ListsDiagonal(m.Length0, final, eigenvalues)
    ensures Conserved(m.Length0, start, final, turns)
    ensures Shrunk(m.Length0, start, final, |turns|)
    ensures Stopped(m.Length0, final, turns, tolerance)
    ensures IsDiagonal(m.Length0, final) ==>
              forall lambda :: IsEigenvalue(m.Length0, start, lambda) <==> lambda in eigenvalues
    ensures m.Length0 > 0 && |turns| < IterationLimit(m.Length0) ==>
              FormBounded(m.Length0, start, eigenvalues, tolerance)
    ensures WithinReach(m.Length0, start, tolerance) ==>
              forall i, j | 0 <= i < j < m.Length0 :: Abs(final(i, j)) < tolerance
    ensures m.Length0 > 0 ==>
              forall eps | eps >= tolerance && WithinReach(m.Length0, start, eps) ::
                FormBounded(m.Length0, start, eigenvalues, eps)
  {
    hide Rotated, Shrunk, Trace, Frobenius, Similar, AreTurns, IterationLimit, WithinReach;
    var n := m.Length0;
    final, turns := start, [];
    ConservedReflexive(n, start);
    ShrunkAtStart(n, start);
    var step := 0;
    while step < IterationLimit(n)
      invariant step == |turns| <= IterationLimit(n)
      invariant Holds(m, n, final) && Conserved(n, start, final, turns) && Shrunk(n, start, final, |turns|)
    {
      var left, right := FindLargestPair(m);
      if left == right || Abs(m[left, right]) < tolerance {
        break;
      }
      var (c, s) := angle(m[left, left], m[left, right], m[right, right]);
      assert Rotatable(n, final, left, right, c, s);
      assert LargestPair(n, final, left, right);
      hide IsRotation;
      RotatedConserved(n, start, final, turns, left, right, c, s);
      RotatedShrunk(n, start, final, left, right, c, s, |turns|);
      RotateInPlace(m, n, final, left, right, c, s);
      final, turns := Rotated(final, left, right, c, s), turns + [Turn(left, right, c, s)];
      step := step + 1;
    }
    eigenvalues := seq(n, i requires 0 <= i < n reads m => m[i, i]);
    if step < IterationLimit(n) {
      BelowIsNearlyDiagonal(n, final, tolerance);
    }
    ValuesMeanSpectrum(n, start, final, turns, eigenvalues, tolerance);
    hide FormBounded;
    EveryRunBounds(n, start, final, turns, eigenvalues, tolerance);
  }

  /** Where a run ends that stopped below the tolerance or used up its iterations. */
  ghost predicate Stopped(n: nat, b: Mat, turns: seq<Turn>, tolerance: real) {
    |turns| == IterationLimit(n) || forall i, j | 0 <= i < j < n :: Abs(b(i, j)) < tolerance
  }

  lemma EndsBelow(n: nat, a: Mat, b: Mat, turns: seq<Turn>, tolerance: real, eps: real)
    requires Symmetric(n, b) && Shrunk(n, a, b, |turns|) && Stopped(n, b, turns, tolerance)
    requires eps >= tolerance >= 0.0 && WithinReach(n, a, eps)
    ensures forall i, j | 0 <= i < j < n :: Abs(b(i, j)) < eps
  {
    hide Shrunk, WithinReach, IterationLimit;
    if |turns| == IterationLimit(n) {
      EndsNearlyDiagonal(n, a, b, eps);
    }
  }

  /** No run is left out: whatever eps the limit reaches, from the tolerance up, bounds
      the form. */
  lemma EveryRunBounds(n: nat, a: Mat, b: Mat, turns: seq<Turn>, values: seq<real>, tolerance: real)
    requires Conserved(n, a, b, turns) && ListsDiagonal(n, b, values) && tolerance >= 0.0
    requires Shrunk(n, a, b, |turns|) && Stopped(n, b, turns, tolerance)
    ensures WithinReach(n, a, tolerance) ==> forall i, j | 0 <= i < j < n :: Abs(b(i, j)) < tolerance
    ensures n > 0 ==> forall eps | eps >= tolerance && WithinReach(n, a, eps) :: FormBounded(n, a, values, eps)
  {
    hide Shrunk, WithinReach, Stopped, FormBounded, Similar, AreTurns, Trace, Frobenius, IsDiagonal;
    forall eps | eps >= tolerance && WithinReach(n, a, eps)
      ensures forall i, j | 0 <= i < j < n :: Abs(b(i, j)) < eps
      ensures n > 0 ==> FormBounded(n, a, values, eps)
    {
      EndsBelow(n, a, b, turns, tolerance, eps);
      BelowIsNearlyDiagonal(n, b, eps);
      ValuesMeanSpectrum(n, a, b, turns, values, eps);
    }
  }

  lemma BelowIsNearlyDiagonal(n: nat, b: Mat, tolerance: real)
    requires Symmetric(n, b) && forall i, j | 0 <= i < j < n :: Abs(b(i, j)) < tolerance
    ensures NearlyDiagonal(n, b, tolerance)
  {
    forall i, j | 0 <= i < n && 0 <= j < n && i != j ensures Abs(b(i, j)) <= tolerance {
      assert b(i, j) == b(j, i);
    }
  }

  /** On unit vectors the form lies between the extreme values, up to n tolerances. */
  ghost predicate FormBounded(n: nat, a: Mat, values: seq<real>, tolerance: real)
    requires values != []
  {
    forall y: Vec | Dot(n, y, y) == 1.0 ::
      Least(values) - n as real * tolerance <= Quad(n, a, y) <= Greatest(values) + n as real * tolerance
  }

  lemma ValuesMeanSpectrum(n: nat, a: Mat, b: Mat, turns: seq<Turn>, values: seq<real>, tolerance: real)
    requires Conserved(n, a, b, turns) && ListsDiagonal(n, b, values) && tolerance >= 0.0
    ensures IsDiagonal(n, b) ==> forall lambda :: IsEigenvalue(n, a, lambda) <==> lambda in values
    ensures n > 0 && NearlyDiagonal(n, b, tolerance) ==> FormBounded(n, a, values, tolerance)
  {
    hide Conserved, IsDiagonal, NearlyDiagonal, IsEigenvalue, Dot, Quad;
    if IsDiagonal(n, b) {
      DiagonalListsEigenvalues(n, a, b, turns, values);
    }
    if n > 0 && NearlyDiagonal(n, b, tolerance) {
      forall y: Vec | Dot(n, y, y) == 1.0
        ensures Least(values) - n as real * tolerance <= Quad(n, a, y) <= Greatest(values) + n as real * tolerance
      {
        ValuesBoundForm(n, a, b, turns, values, tolerance, y);
      }
    }
  }
}
