/** The order of strings by code point and stable sorting by a string key. */
module Ordering {

  /** a <= b, as Python compares strings. */
  predicate Below(a: string, b: string) {
    if a == [] then true
    else if b == [] then false
    else a[0] < b[0] || (a[0] == b[0] && Below(a[1..], b[1..]))
  }

  lemma {:induction false} BelowTotal(a: string, b: string)
    ensures Below(a, b) || Below(b, a)
  {
    if a != [] && b != [] && a[0] == b[0] {
      BelowTotal(a[1..], b[1..]);
    }
  }

  lemma {:induction false} BelowAntisymmetric(a: string, b: string)
    requires Below(a, b) && Below(b, a)
    ensures a == b
  {
    if a != [] {
      BelowAntisymmetric(a[1..], b[1..]);
      assert a == [a[0]] + a[1..] && b == [b[0]] + b[1..];
    }
  }

  lemma {:induction false} BelowTransitive(a: string, b: string, c: string)
    requires Below(a, b) && Below(b, c)
    ensures Below(a, c)
  {
    if a != [] && a[0] == b[0] == c[0] {
      BelowTransitive(a[1..], b[1..], c[1..]);
    }
  }

  ghost predicate SortedBy<T(!new)>(xs: seq<T>, key: T -> string) {
    forall i, j | 0 <= i < j < |xs| :: Below(key(xs[i]), key(xs[j]))
  }

  function Insert<T>(x: T, xs: seq<T>, key: T -> string): seq<T> {
    if xs == [] then [x]
    else if Below(key(x), key(xs[0])) then [x] + xs
    else [xs[0]] + Insert(x, xs[1..], key)
  }

  function SortBy<T>(xs: seq<T>, key: T -> string): seq<T> {
    if xs == [] then [] else Insert(xs[0], SortBy(xs[1..], key), key)
  }

  lemma {:induction false} InsertPermutes<T>(x: T, xs: seq<T>, key: T -> string)
    ensures multiset(Insert(x, xs, key)) == multiset(xs) + multiset{x}
  {
    if xs != [] {
      assert xs == [xs[0]] + xs[1..];
      if !Below(key(x), key(xs[0])) {
        InsertPermutes(x, xs[1..], key);
      }
    }
  }

  lemma {:induction false} SortPermutes<T>(xs: seq<T>, key: T -> string)
    ensures multiset(SortBy(xs, key)) == multiset(xs)
    ensures |SortBy(xs, key)| == |xs|
    ensures forall x :: x in SortBy(xs, key) <==> x in xs
  {
    if xs != [] {
      assert xs == [xs[0]] + xs[1..];
      SortPermutes(xs[1..], key);
      InsertPermutes(xs[0], SortBy(xs[1..], key), key);
    }
    assert |multiset(SortBy(xs, key))| == |SortBy(xs, key)| && |multiset(xs)| == |xs|;
    forall x ensures x in SortBy(xs, key) <==> x in xs {
      assert x in SortBy(xs, key) <==> x in multiset(SortBy(xs, key));
      assert x in xs <==> x in multiset(xs);
    }
  }

  lemma {:induction false} InsertSorted<T(!new)>(x: T, xs: seq<T>, key: T -> string)
    requires SortedBy(xs, key)
    ensures SortedBy(Insert(x, xs, key), key)
  {
    if xs != [] {
      var r := Insert(x, xs, key);
      if Below(key(x), key(xs[0])) {
        forall j | 0 < j < |r| ensures Below(key(x), key(r[j])) {
          if j > 1 {
            BelowTransitive(key(x), key(xs[0]), key(xs[j - 1]));
          }
        }
      } else {
        BelowTotal(key(x), key(xs[0]));
        InsertSorted(x, xs[1..], key);
        InsertPermutes(x, xs[1..], key);
        var rest := Insert(x, xs[1..], key);
        forall j | 0 <= j < |rest| ensures Below(key(xs[0]), key(rest[j])) {
          assert rest[j] in multiset(rest);
          assert rest[j] in xs[1..] || rest[j] == x;
        }
      }
    }
  }

  lemma {:induction false} SortSorted<T(!new)>(xs: seq<T>, key: T -> string)
    ensures SortedBy(SortBy(xs, key), key)
  {
    if xs != [] {
      SortSorted(xs[1..], key);
      InsertSorted(xs[0], SortBy(xs[1..], key), key);
    }
  }

  /** Equal keys keep their order: what held of every earlier and later element before
      holds of those with equal keys after. */
  ghost predicate TiesKeep<T(!new)>(xs: seq<T>, key: T -> string, earlier: (T, T) -> bool) {
    forall i, j | 0 <= i < j < |xs| && key(xs[i]) == key(xs[j]) :: earlier(xs[i], xs[j])
  }

  lemma TiesAfter<T(!new)>(y: T, rest: seq<T>, key: T -> string, earlier: (T, T) -> bool)
    requires TiesKeep(rest, key, earlier)
    requires forall z | z in rest && key(z) == key(y) :: earlier(y, z)
    ensures TiesKeep([y] + rest, key, earlier)
  {
    var r := [y] + rest;
    assert forall j | 0 < j < |r| :: r[j] == rest[j - 1] && rest[j - 1] in rest;
  }

  lemma TiesWithin<T(!new)>(xs: seq<T>, key: T -> string, earlier: (T, T) -> bool)
    requires TiesKeep(xs, key, earlier) && xs != []
    ensures TiesKeep(xs[1..], key, earlier)
    ensures forall z | z in xs[1..] && key(z) == key(xs[0]) :: earlier(xs[0], z)
  {
    forall z | z in xs[1..] && key(z) == key(xs[0]) ensures earlier(xs[0], z) {
      var k :| 0 <= k < |xs[1..]| && xs[1..][k] == z;
      assert xs[k + 1] == z;
    }
    forall i, j | 0 <= i < j < |xs[1..]| && key(xs[1..][i]) == key(xs[1..][j]) ensures earlier(xs[1..][i], xs[1..][j]) {
      assert xs[1..][i] == xs[i + 1] && xs[1..][j] == xs[j + 1];
    }
  }

  lemma {:induction false} InsertStable<T(!new)>(x: T, xs: seq<T>, key: T -> string, earlier: (T, T) -> bool)
    requires TiesKeep(xs, key, earlier)
    requires forall y | y in xs :: earlier(x, y)
    ensures TiesKeep(Insert(x, xs, key), key, earlier)
  {
    if xs == [] {
    } else if Below(key(x), key(xs[0])) {
      TiesAfter(x, xs, key, earlier);
    } else {
      var rest := Insert(x, xs[1..], key);
      TiesWithin(xs, key, earlier);
      assert forall y | y in xs[1..] :: y in xs;
      InsertStable(x, xs[1..], key, earlier);
      InsertPermutes(x, xs[1..], key);
      BelowTotal(key(x), key(x));
      forall z | z in rest && key(z) == key(xs[0]) ensures earlier(xs[0], z) {
        assert z in multiset(rest);
        assert z in xs[1..] || z == x;
      }
      hide TiesKeep;
      TiesAfter(xs[0], rest, key, earlier);
    }
  }

  lemma {:induction false} SortStable<T(!new)>(xs: seq<T>, key: T -> string, earlier: (T, T) -> bool)
    requires forall i, j | 0 <= i < j < |xs| :: earlier(xs[i], xs[j])
    ensures TiesKeep(SortBy(xs, key), key, earlier)
  {
    if xs != [] {
      var rest := SortBy(xs[1..], key);
      SortStable(xs[1..], key, earlier);
      SortSorted(xs[1..], key);
      SortPermutes(xs[1..], key);
      forall y | y in rest ensures earlier(xs[0], y) {
        assert y in xs[1..];
        var k :| 0 <= k < |xs[1..]| && xs[1..][k] == y;
        assert xs[k + 1] == y;
      }
      InsertStable(xs[0], rest, key, earlier);
    }
  }

  /** Sorting a sorted sequence changes nothing. */
  lemma {:induction false} SortFixed<T(!new)>(xs: seq<T>, key: T -> string)
    requires SortedBy(xs, key)
    ensures SortBy(xs, key) == xs
  {
    if xs != [] {
      SortFixed(xs[1..], key);
      assert xs == [xs[0]] + xs[1..];
    }
  }

  function Map<T, U>(f: T -> U, xs: seq<T>): (r: seq<U>)
    ensures |r| == |xs|
  {
    seq(|xs|, i requires 0 <= i < |xs| => f(xs[i]))
  }

  lemma {:induction false} InsertMap<T, U>(f: T -> U, x: T, xs: seq<T>, key: U -> string, through: T -> string)
    requires forall t :: through(t) == key(f(t))
    ensures Insert(f(x), Map(f, xs), key) == Map(f, Insert(x, xs, through))
  {
    if xs != [] {
      assert Map(f, xs)[1..] == Map(f, xs[1..]);
      if !Below(through(x), through(xs[0])) {
        InsertMap(f, x, xs[1..], key, through);
      }
    }
  }

  /** Sorting commutes with mapping when the keys agree. */
  lemma {:induction false} SortMap<T(!new), U>(f: T -> U, xs: seq<T>, key: U -> string, through: T -> string)
    requires forall t :: through(t) == key(f(t))
    ensures SortBy(Map(f, xs), key) == Map(f, SortBy(xs, through))
  {
    if xs != [] {
      assert Map(f, xs)[1..] == Map(f, xs[1..]);
      SortMap(f, xs[1..], key, through);
      InsertMap(f, xs[0], SortBy(xs[1..], through), key, through);
    }
  }

  // ------------------------------------------------------- sorted sets of keys

  predicate IsLeast(k: string, s: set<string>) {
    k in s && forall j | j in s :: Below(k, j)
  }

  lemma {:induction false} LeastExists(s: set<string>)
    requires s != {}
    ensures exists k :: IsLeast(k, s)
  {
    var x :| x in s;
    BelowTotal(x, x);
    if s == {x} {
      assert IsLeast(x, s);
    } else {
      LeastExists(s - {x});
      var k :| IsLeast(k, s - {x});
      BelowTotal(x, k);
      if Below(x, k) {
        forall j | j in s ensures Below(x, j) {
          if j != x {
            BelowTransitive(x, k, j);
          }
        }
        assert IsLeast(x, s);
      } else {
        assert IsLeast(k, s);
      }
    }
  }

  /** The smallest key. */
  function Least(s: set<string>): (k: string)
    requires s != {}
    ensures IsLeast(k, s)
  {
    LeastExists(s);
    LeastUnique(s);
    var k :| k in s && IsLeast(k, s);
    k
  }

  lemma LeastUnique(s: set<string>)
    ensures forall k, l | IsLeast(k, s) && IsLeast(l, s) :: k == l
  {
    forall k, l | IsLeast(k, s) && IsLeast(l, s) ensures k == l {
      BelowAntisymmetric(k, l);
    }
  }

  /** sorted(keys): every key once, in order. */
  function SortedKeys(s: set<string>): (r: seq<string>)
    ensures forall k :: k in r <==> k in s
    ensures forall i, j | 0 <= i < j < |r| :: r[i] != r[j] && Below(r[i], r[j])
  {
    if s == {} then [] else [Least(s)] + SortedKeys(s - {Least(s)})
  }
}
