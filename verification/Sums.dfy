/** Finite sums of reals over a half-open index range, with the few laws the
    matrix proofs need.  Vectors and matrices are total functions on indices;
    only the entries below the dimension matter. */
module Sums {
  import opened Reals

  type Vec = int -> real
  type Mat = (int, int) -> real

  function Sum(lo: int, hi: int, f: Vec): real
    decreases hi - lo
  {
    if lo >= hi then 0.0 else f(lo) + Sum(lo + 1, hi, f)
  }

  lemma {:induction false} SumCongruence(lo: int, hi: int, f: Vec, g: Vec)
    requires forall i | lo <= i < hi :: f(i) == g(i)
    ensures Sum(lo, hi, f) == Sum(lo, hi, g)
    decreases hi - lo
  {
    if lo < hi {
      SumCongruence(lo + 1, hi, f, g);
    }
  }

  lemma {:induction false} SumMonotone(lo: int, hi: int, f: Vec, g: Vec)
    requires forall i | lo <= i < hi :: f(i) <= g(i)
    ensures Sum(lo, hi, f) <= Sum(lo, hi, g)
    decreases hi - lo
  {
    if lo < hi {
      SumMonotone(lo + 1, hi, f, g);
    }
  }

  lemma {:induction false} SumConstant(lo: int, hi: int, c: real, f: Vec)
    requires lo <= hi
    requires forall i | lo <= i < hi :: f(i) == c
    ensures Sum(lo, hi, f) == (hi - lo) as real * c
    decreases hi - lo
  {
    if lo < hi {
      SumConstant(lo + 1, hi, c, f);
      assert (hi - lo) as real == (hi - lo - 1) as real + 1.0;
    }
  }

  lemma {:induction false} SumLinear(lo: int, hi: int, a: real, f: Vec, b: real, g: Vec, h: Vec)
    requires forall i | lo <= i < hi :: h(i) == a * f(i) + b * g(i)
    ensures Sum(lo, hi, h) == a * Sum(lo, hi, f) + b * Sum(lo, hi, g)
    decreases hi - lo
  {
    if lo < hi {
      SumLinear(lo + 1, hi, a, f, b, g, h);
      calc {
        Sum(lo, hi, h);
        h(lo) + Sum(lo + 1, hi, h);
        (a * f(lo) + b * g(lo)) + (a * Sum(lo + 1, hi, f) + b * Sum(lo + 1, hi, g));
        a * (f(lo) + Sum(lo + 1, hi, f)) + b * (g(lo) + Sum(lo + 1, hi, g));
      }
    }
  }

  lemma SumScale(lo: int, hi: int, a: real, f: Vec, h: Vec)
    requires forall i | lo <= i < hi :: h(i) == a * f(i)
    ensures Sum(lo, hi, h) == a * Sum(lo, hi, f)
  {
    hide Sum;
    SumLinear(lo, hi, a, f, 0.0, f, h);
  }

  lemma SumAdd(lo: int, hi: int, f: Vec, g: Vec, h: Vec)
    requires forall i | lo <= i < hi :: h(i) == f(i) + g(i)
    ensures Sum(lo, hi, h) == Sum(lo, hi, f) + Sum(lo, hi, g)
  {
    hide Sum;
    SumLinear(lo, hi, 1.0, f, 1.0, g, h);
  }

  /** Two sums that differ at one index only. */
  lemma {:induction false} SumDifferOne(lo: int, hi: int, p: int, f: Vec, g: Vec)
    requires lo <= p < hi
    requires forall i | lo <= i < hi && i != p :: f(i) == g(i)
    ensures Sum(lo, hi, f) - Sum(lo, hi, g) == f(p) - g(p)
    decreases hi - lo
  {
    if lo == p {
      SumCongruence(lo + 1, hi, f, g);
    } else {
      SumDifferOne(lo + 1, hi, p, f, g);
    }
  }

  /** Two sums that differ at two indices only. */
  lemma {:induction false} SumDifferTwo(lo: int, hi: int, p: int, q: int, f: Vec, g: Vec)
    requires lo <= p < hi && lo <= q < hi && p != q
    requires forall i | lo <= i < hi && i != p && i != q :: f(i) == g(i)
    ensures Sum(lo, hi, f) - Sum(lo, hi, g) == (f(p) - g(p)) + (f(q) - g(q))
  {
    var h := (i: int) => if i == p then f(p) else g(i);
    SumDifferOne(lo, hi, p, h, g);
    SumDifferOne(lo, hi, q, f, h);
  }

  lemma {:induction false} SumAppend(lo: int, hi: int, f: Vec)
    requires lo <= hi
    ensures Sum(lo, hi + 1, f) == Sum(lo, hi, f) + f(hi)
    decreases hi - lo
  {
    if lo < hi {
      SumAppend(lo + 1, hi, f);
    }
  }

  /** A sum whose terms vanish away from index p. */
  lemma SumSingle(lo: int, hi: int, p: int, f: Vec)
    requires lo <= p < hi
    requires forall i | lo <= i < hi && i != p :: f(i) == 0.0
    ensures Sum(lo, hi, f) == f(p)
  {
    var zero := (i: int) => 0.0;
    SumDifferOne(lo, hi, p, f, zero);
    SumConstant(lo, hi, 0.0, zero);
  }

  lemma SumConstantZero(n: int, f: Vec)
    requires forall i | 0 <= i < n :: f(i) == 0.0
    ensures Sum(0, n, f) == 0.0
  {
    SumScale(0, n, 0.0, f, f);
  }

  lemma SumNonnegative(lo: int, hi: int, f: Vec)
    requires forall i | lo <= i < hi :: f(i) >= 0.0
    ensures Sum(lo, hi, f) >= 0.0
  {
    SumScale(lo, hi, 0.0, f, i => 0.0);
    SumMonotone(lo, hi, i => 0.0, f);
  }

  /** A sum of terms that are not negative is at least any one of them. */
  lemma SumAtLeastOne(n: int, p: int, f: Vec)
    requires 0 <= p < n && forall i | 0 <= i < n :: f(i) >= 0.0
    ensures Sum(0, n, f) >= f(p)
  {
    var rest := (i: int) => if i == p then 0.0 else f(i);
    SumDifferOne(0, n, p, f, rest);
    SumNonnegative(0, n, rest);
  }

  lemma SumAtLeastTwo(n: int, p: int, q: int, f: Vec)
    requires 0 <= p < n && 0 <= q < n && p != q && forall i | 0 <= i < n :: f(i) >= 0.0
    ensures Sum(0, n, f) >= f(p) + f(q)
  {
    var rest := (i: int) => if i == p || i == q then 0.0 else f(i);
    SumDifferTwo(0, n, p, q, f, rest);
    SumNonnegative(0, n, rest);
  }

  lemma {:induction false} SumAbsBound(lo: int, hi: int, c: real, f: Vec, g: Vec)
    requires forall i | lo <= i < hi :: -(c * g(i)) <= f(i) <= c * g(i)
    ensures -(c * Sum(lo, hi, g)) <= Sum(lo, hi, f) <= c * Sum(lo, hi, g)
    decreases hi - lo
  {
    if lo < hi {
      SumAbsBound(lo + 1, hi, c, f, g);
      Distribute(c, g(lo), Sum(lo + 1, hi, g));
    }
  }
}
