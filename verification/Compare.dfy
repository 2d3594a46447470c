/** The numeric comparators and their bounded collector
    (src/envresearch/benchmarks/compare.py lines 18, 61-87, 149-155, 182-222,
    306-339). Finite numbers are reals. */
module Compare {
  import opened Options
  import opened Reals
  import opened Ordering
  import opened Text
  import opened JsonPointers

  const MAX_REPORTED_DIFFERENCES := 100

  /** Absent values are reported as null. */
  datatype Difference = Difference(location: string, expected: Json, actual: Json, tolerance: Option<real>)

  /** The declared tolerances, how a key extends a location, and how a cell is read
      as a number. */
  datatype Spec = Spec(
    absolute: real,
    relative: real,
    keyLocation: (string, string) -> string,
    parseFloat: string -> Option<real>)

  datatype Result =
    | Matched
    | Mismatched(differences: seq<Difference>, total: nat)

  // ------------------------------------------------------------------- collector

  function FirstOf<T>(xs: seq<T>, n: nat): seq<T> {
    if |xs| <= n then xs else xs[..n]
  }

  class DifferenceCollector {
    var details: seq<Difference>
    var total: nat

    /** The collector has been given exactly these differences. */
    ghost predicate Records(all: seq<Difference>)
      reads this
    {
      total == |all| && details == FirstOf(all, MAX_REPORTED_DIFFERENCES)
    }

    constructor ()
      ensures Records([])
    {
      details, total := [], 0;
    }

    method Add(difference: Difference, ghost all: seq<Difference>)
      requires Records(all)
      modifies this
      ensures Records(all + [difference])
    {
      total := total + 1;
      if |details| < MAX_REPORTED_DIFFERENCES {
        details := details + [difference];
      }
    }

    /** _differences_result. */
    method Result(ghost all: seq<Difference>) returns (r: Result)
      requires Records(all)
      ensures r == if all == [] then Matched else Mismatched(FirstOf(all, MAX_REPORTED_DIFFERENCES), |all|)
    {
      if details == [] {
        return Matched;
      }
      return Mismatched(details, total);
    }
  }

  // --------------------------------------------------------- the sequence specified

  function NumericTolerance(spec: Spec, expected: real): real {
    spec.absolute + spec.relative * Abs(expected)
  }

  function NumbersMatch(expected: real, actual: real, tolerance: real): bool {
    Abs(actual - expected) <= tolerance
  }

  function IndexLocation(location: string, i: nat): string {
    location + "[" + Decimal(i) + "]"
  }

  /** Every difference between the two trees, in the order they are met. */
  function Differences(spec: Spec, location: string, e: Json, a: Json): seq<Difference>
    decreases e, 1, 0
  {
    if e.JObject? && a.JObject? then
      KeyDifferences(spec, location, e, a, SortedKeys(e.fields.Keys + a.fields.Keys))
    else if e.JArray? && a.JArray? then
      ItemDifferences(spec, location, e, a, if |e.items| <= |a.items| then |a.items| else |e.items|)
    else if e.JNumber? && a.JNumber? then
      var tolerance := NumericTolerance(spec, e.r);
      if NumbersMatch(e.r, a.r, tolerance) then [] else [Difference(location, e, a, Some(tolerance))]
    else if e != a then [Difference(location, e, a, None)]
    else []
  }

  function KeyDifferences(spec: Spec, location: string, e: Json, a: Json, keys: seq<string>): seq<Difference>
    requires e.JObject? && a.JObject?
    decreases e, 0, |keys|
  {
    if keys == [] then []
    else
      KeyDifferences(spec, location, e, a, keys[..|keys| - 1])
        + AtKey(spec, spec.keyLocation(location, keys[|keys| - 1]), e, a, keys[|keys| - 1])
  }

  function AtKey(spec: Spec, location: string, e: Json, a: Json, k: string): seq<Difference>
    requires e.JObject? && a.JObject?
    decreases e, 0, 0
  {
    if k in e.fields && k in a.fields then Differences(spec, location, e.fields[k], a.fields[k])
    else if k in a.fields then [Difference(location, JNull, a.fields[k], None)]
    else if k in e.fields then [Difference(location, e.fields[k], JNull, None)]
    else []
  }

  lemma KeyDifferencesNext(spec: Spec, location: string, e: Json, a: Json, keys: seq<string>, i: nat)
    requires e.JObject? && a.JObject? && i < |keys|
    ensures KeyDifferences(spec, location, e, a, keys[..i + 1])
            == KeyDifferences(spec, location, e, a, keys[..i])
              + AtKey(spec, spec.keyLocation(location, keys[i]), e, a, keys[i])
  {
    assert keys[..i + 1][..i] == keys[..i];
  }

  lemma Regroup(all: seq<Difference>, before: seq<Difference>, found: seq<Difference>)
    ensures all + before + found == all + (before + found)
  {
  }

  /** The first n positions: shared items compared, the longer list's tail reported. */
  function ItemDifferences(spec: Spec, location: string, e: Json, a: Json, n: nat): seq<Difference>
    requires e.JArray? && a.JArray?
    decreases e, 0, n
  {
    if n == 0 then []
    else
      ItemDifferences(spec, location, e, a, n - 1) + AtIndex(spec, IndexLocation(location, n - 1), e, a, n - 1)
  }

  function AtIndex(spec: Spec, location: string, e: Json, a: Json, i: nat): seq<Difference>
    requires e.JArray? && a.JArray?
    decreases e, 0, 0
  {
    if i < |e.items| && i < |a.items| then Differences(spec, location, e.items[i], a.items[i])
    else if i < |e.items| then [Difference(location, e.items[i], JNull, None)]
    else if i < |a.items| then [Difference(location, JNull, a.items[i], None)]
    else []
  }

  lemma ItemDifferencesNext(spec: Spec, location: string, e: Json, a: Json, i: nat, all: seq<Difference>)
    requires e.JArray? && a.JArray?
    ensures all + ItemDifferences(spec, location, e, a, i + 1)
            == all + ItemDifferences(spec, location, e, a, i) + AtIndex(spec, IndexLocation(location, i), e, a, i)
    ensures all + ItemDifferences(spec, location, e, a, 0) == all
  {
    hide AtIndex, Decimal;
    Regroup(all, ItemDifferences(spec, location, e, a, i), AtIndex(spec, IndexLocation(location, i), e, a, i));
  }

  // ----------------------------------------------------------------- the comparison

  /** _compare_json_value: hands the collector exactly the specified differences. */
  method CompareJsonValue(spec: Spec, location: string, e: Json, a: Json, collector: DifferenceCollector,
                          ghost all: seq<Difference>)
    requires collector.Records(all)
    modifies collector
    ensures collector.Records(all + Differences(spec, location, e, a))
    decreases e, 1
  {
    hide SortedKeys, NumericTolerance, FirstOf, DifferenceCollector.Records;
    if e.JObject? && a.JObject? {
      CompareKeys(spec, location, e, a, collector, all);
      return;
    }
    if e.JArray? && a.JArray? {
      CompareItems(spec, location, e, a, collector, all);
      return;
    }
    if e.JNumber? && a.JNumber? {
      var tolerance := NumericTolerance(spec, e.r);
      if !NumbersMatch(e.r, a.r, tolerance) {
        collector.Add(Difference(location, e, a, Some(tolerance)), all);
      } else {
        assert all + [] == all;
      }
      return;
    }
    if e != a {
      collector.Add(Difference(location, e, a, None), all);
    } else {
      assert all + [] == all;
    }
  }

  method CompareKeys(spec: Spec, location: string, e: Json, a: Json, collector: DifferenceCollector,
                     ghost all: seq<Difference>)
    requires e.JObject? && a.JObject? && collector.Records(all)
    modifies collector
    ensures collector.Records(all + KeyDifferences(spec, location, e, a, SortedKeys(e.fields.Keys + a.fields.Keys)))
    decreases e, 0
  {
    hide SortedKeys, FirstOf, Differences, KeyDifferences, DifferenceCollector.Records;
    var keys := SortedKeys(e.fields.Keys + a.fields.Keys);
    ghost var soFar := all;
    assert soFar == all + KeyDifferences(spec, location, e, a, keys[..0]) by {
      NoKeys(spec, location, e, a, keys[..0]);
    }
    for i := 0 to |keys|
      invariant soFar == all + KeyDifferences(spec, location, e, a, keys[..i])
      invariant collector.Records(soFar)
    {
      var k := keys[i];
      assert k in e.fields.Keys + a.fields.Keys;
      var keyLocation := spec.keyLocation(location, k);
      if k !in e.fields {
        collector.Add(Difference(keyLocation, JNull, a.fields[k], None), soFar);
      } else if k !in a.fields {
        collector.Add(Difference(keyLocation, e.fields[k], JNull, None), soFar);
      } else {
        CompareJsonValue(spec, keyLocation, e.fields[k], a.fields[k], collector, soFar);
      }
      KeyDifferencesNext(spec, location, e, a, keys, i);
      Regroup(all, KeyDifferences(spec, location, e, a, keys[..i]), AtKey(spec, keyLocation, e, a, k));
      soFar := soFar + AtKey(spec, keyLocation, e, a, k);
    }
    assert keys[..|keys|] == keys;
  }

  lemma NoKeys(spec: Spec, location: string, e: Json, a: Json, keys: seq<string>)
    requires e.JObject? && a.JObject? && keys == []
    ensures KeyDifferences(spec, location, e, a, keys) == []
  {
  }

  method CompareItems(spec: Spec, location: string, e: Json, a: Json, collector: DifferenceCollector,
                      ghost all: seq<Difference>)
    requires e.JArray? && a.JArray? && collector.Records(all)
    modifies collector
    ensures var longer := if |e.items| <= |a.items| then |a.items| else |e.items|;
            collector.Records(all + ItemDifferences(spec, location, e, a, longer))
    decreases e, 0
  {
    hide FirstOf, Differences, ItemDifferences, IndexLocation, DifferenceCollector.Records;
    var shared := if |e.items| <= |a.items| then |e.items| else |a.items|;
    ItemDifferencesNext(spec, location, e, a, 0, all);
    for i := 0 to shared
      invariant collector.Records(all + ItemDifferences(spec, location, e, a, i))
    {
      ItemDifferencesNext(spec, location, e, a, i, all);
      CompareJsonValue(spec, IndexLocation(location, i), e.items[i], a.items[i], collector,
                       all + ItemDifferences(spec, location, e, a, i));
    }
    for i := shared to |e.items|
      invariant collector.Records(all + ItemDifferences(spec, location, e, a, i))
    {
      ItemDifferencesNext(spec, location, e, a, i, all);
      collector.Add(Difference(IndexLocation(location, i), e.items[i], JNull, None),
                    all + ItemDifferences(spec, location, e, a, i));
    }
    ghost var top := if |e.items| <= |a.items| then shared else |e.items|;
    for i := shared to |a.items|
      invariant var seen := if |e.items| <= |a.items| then i else top;
                collector.Records(all + ItemDifferences(spec, location, e, a, seen))
    {
      ItemDifferencesNext(spec, location, e, a, i, all);
      collector.Add(Difference(IndexLocation(location, i), JNull, a.items[i], None),
                    all + ItemDifferences(spec, location, e, a, i));
    }
  }

  // --------------------------------------------------------------- what it decides

  /** The same structure, every number within its own tolerance. */
  ghost predicate EqualWithin(spec: Spec, e: Json, a: Json)
    decreases e
  {
    if e.JObject? && a.JObject? then
      e.fields.Keys == a.fields.Keys &&
      forall k | k in e.fields :: k in a.fields && EqualWithin(spec, e.fields[k], a.fields[k])
    else if e.JArray? && a.JArray? then
      |e.items| == |a.items| && forall i | 0 <= i < |e.items| :: EqualWithin(spec, e.items[i], a.items[i])
    else if e.JNumber? && a.JNumber? then Abs(a.r - e.r) <= spec.absolute + spec.relative * Abs(e.r)
    else e == a
  }

  /** No difference exactly when the trees are equal up to tolerance. */
  lemma {:induction false} NoDifferencesExactly(spec: Spec, location: string, e: Json, a: Json)
    ensures Differences(spec, location, e, a) == [] <==> EqualWithin(spec, e, a)
    decreases e, 1, 0
  {
    hide SortedKeys, Decimal;
    if e.JObject? && a.JObject? {
      var keys := SortedKeys(e.fields.Keys + a.fields.Keys);
      NoKeyDifferences(spec, location, e, a, keys);
      assert forall k :: k in keys <==> k in e.fields || k in a.fields;
    } else if e.JArray? && a.JArray? {
      NoItemDifferences(spec, location, e, a, if |e.items| <= |a.items| then |a.items| else |e.items|);
    }
  }

  lemma {:induction false} NoKeyDifferences(spec: Spec, location: string, e: Json, a: Json, keys: seq<string>)
    requires e.JObject? && a.JObject? && forall k | k in keys :: k in e.fields || k in a.fields
    ensures KeyDifferences(spec, location, e, a, keys) == [] <==>
            forall k | k in keys :: k in e.fields && k in a.fields && EqualWithin(spec, e.fields[k], a.fields[k])
    decreases e, 0, |keys|
  {
    hide EqualWithin, Differences;
    if keys != [] {
      var init, k := keys[..|keys| - 1], keys[|keys| - 1];
      assert keys == init + [k];
      NoKeyDifferences(spec, location, e, a, init);
      if k in e.fields && k in a.fields {
        NoDifferencesExactly(spec, spec.keyLocation(location, k), e.fields[k], a.fields[k]);
      }
    }
  }

  lemma {:induction false} NoItemDifferences(spec: Spec, location: string, e: Json, a: Json, n: nat)
    requires e.JArray? && a.JArray? && (n <= |e.items| || n <= |a.items|)
    ensures ItemDifferences(spec, location, e, a, n) == [] <==>
            forall i | 0 <= i < n :: i < |e.items| && i < |a.items| && EqualWithin(spec, e.items[i], a.items[i])
    decreases e, 0, n
  {
    hide EqualWithin, Differences, Decimal;
    if n > 0 {
      NoItemDifferences(spec, location, e, a, n - 1);
      if n <= |e.items| && n <= |a.items| {
        NoDifferencesExactly(spec, IndexLocation(location, n - 1), e.items[n - 1], a.items[n - 1]);
      }
    }
  }

  /** The location of an item is the list's own, then the index, which can be read off it. */
  lemma IndexLocationNames(location: string, i: nat, j: nat)
    ensures location <= IndexLocation(location, i) != location
    ensures IndexLocation(location, i) == IndexLocation(location, j) <==> i == j
  {
    hide Decimal;
    var x, y := IndexLocation(location, i), IndexLocation(location, j);
    DecimalRoundTrip(i);
    DecimalRoundTrip(j);
    assert x[|location| + 1..|x| - 1] == Decimal(i) && y[|location| + 1..|y| - 1] == Decimal(j);
  }

  // ------------------------------------------------- what each difference reports

  datatype Step = Key(k: string) | Index(i: nat)

  function Child(v: Json, s: Step): Option<Json> {
    match s
    case Key(k) => if v.JObject? && k in v.fields then Some(v.fields[k]) else None
    case Index(i) => if v.JArray? && i < |v.items| then Some(v.items[i]) else None
  }

  /** Two values of which neither comparison goes any deeper. */
  ghost predicate Conflicts(spec: Spec, e: Json, a: Json) {
    && !(e.JObject? && a.JObject?) && !(e.JArray? && a.JArray?)
    && if e.JNumber? && a.JNumber? then Abs(a.r - e.r) > NumericTolerance(spec, e.r) else e != a
  }

  /** Along these steps both trees branch alike, and at their end the values conflict or
      one of the trees has nothing. */
  ghost predicate DiffersAt(spec: Spec, e: Json, a: Json, steps: seq<Step>)
    decreases |steps|
  {
    if steps == [] then Conflicts(spec, e, a)
    else
      var x, y := Child(e, steps[0]), Child(a, steps[0]);
      && ((e.JObject? && a.JObject?) || (e.JArray? && a.JArray?))
      && if x.Some? && y.Some? then DiffersAt(spec, x.value, y.value, steps[1..])
         else (x.Some? || y.Some?) && |steps| == 1
  }

  function OrNull(v: Option<Json>): Json {
    if v.Some? then v.value else JNull
  }

  function StepLocation(spec: Spec, location: string, s: Step): string {
    match s
    case Key(k) => spec.keyLocation(location, k)
    case Index(i) => IndexLocation(location, i)
  }

  /** What is reported there: what the expected tree holds, then what the actual one does,
      null for nothing, with the tolerance when both are numbers. */
  function ReportAt(spec: Spec, location: string, e: Json, a: Json, steps: seq<Step>): Difference
    decreases |steps|
  {
    if steps == [] then
      Difference(location, e, a,
                 if e.JNumber? && a.JNumber? then Some(NumericTolerance(spec, e.r)) else None)
    else
      var x, y, there := Child(e, steps[0]), Child(a, steps[0]), StepLocation(spec, location, steps[0]);
      if x.Some? && y.Some? then ReportAt(spec, there, x.value, y.value, steps[1..])
      else Difference(there, OrNull(x), OrNull(y), None)
  }

  ghost predicate Reported(spec: Spec, location: string, e: Json, a: Json, d: Difference) {
    exists steps :: DiffersAt(spec, e, a, steps) && ReportAt(spec, location, e, a, steps) == d
  }

  ghost predicate ReportedUnder(spec: Spec, location: string, e: Json, a: Json, s: Step, d: Difference) {
    exists rest :: DiffersAt(spec, e, a, [s] + rest) && ReportAt(spec, location, e, a, [s] + rest) == d
  }

  /** A difference is listed exactly when the trees differ along some steps and it reports
      what they hold there. */
  lemma {:induction false} DifferencesExactly(spec: Spec, location: string, e: Json, a: Json, d: Difference)
    ensures d in Differences(spec, location, e, a) <==> Reported(spec, location, e, a, d)
    decreases e, 1, 0
  {
    hide SortedKeys, Decimal;
    if e.JObject? && a.JObject? {
      var keys := SortedKeys(e.fields.Keys + a.fields.Keys);
      KeyDifferencesExactly(spec, location, e, a, keys, d);
      KeysReported(spec, location, e, a, keys, d);
    } else if e.JArray? && a.JArray? {
      var n := if |e.items| <= |a.items| then |a.items| else |e.items|;
      ItemDifferencesExactly(spec, location, e, a, n, d);
      ItemsReported(spec, location, e, a, n, d);
    } else {
      LeafReported(spec, location, e, a, d);
    }
  }

  lemma LeafReported(spec: Spec, location: string, e: Json, a: Json, d: Difference)
    requires !(e.JObject? && a.JObject?) && !(e.JArray? && a.JArray?)
    ensures d in Differences(spec, location, e, a) <==> Reported(spec, location, e, a, d)
  {
    hide Conflicts, Differences;
    LeafDifferences(spec, location, e, a);
    if d in Differences(spec, location, e, a) {
      assert DiffersAt(spec, e, a, []) && ReportAt(spec, location, e, a, []) == d;
    }
    if Reported(spec, location, e, a, d) {
      var steps: seq<Step> :| DiffersAt(spec, e, a, steps) && ReportAt(spec, location, e, a, steps) == d;
      assert steps == [];
    }
  }

  lemma LeafDifferences(spec: Spec, location: string, e: Json, a: Json)
    requires !(e.JObject? && a.JObject?) && !(e.JArray? && a.JArray?)
    ensures Differences(spec, location, e, a)
         == if Conflicts(spec, e, a) then [ReportAt(spec, location, e, a, [])] else []
  {
    hide Abs, NumericTolerance;
  }

  lemma KeysReported(spec: Spec, location: string, e: Json, a: Json, keys: seq<string>, d: Difference)
    requires e.JObject? && a.JObject? && forall k :: k in keys <==> k in e.fields || k in a.fields
    ensures Reported(spec, location, e, a, d) <==>
              exists k | k in keys :: ReportedUnder(spec, location, e, a, Key(k), d)
  {
    hide ReportAt, IndexLocation, NumericTolerance;
    if Reported(spec, location, e, a, d) {
      var steps: seq<Step> :| DiffersAt(spec, e, a, steps) && ReportAt(spec, location, e, a, steps) == d;
      assert steps != [] && steps == [steps[0]] + steps[1..];
      assert steps[0].Key? && steps[0].k in keys;
      assert ReportedUnder(spec, location, e, a, Key(steps[0].k), d);
    }
  }

  lemma ItemsReported(spec: Spec, location: string, e: Json, a: Json, n: nat, d: Difference)
    requires e.JArray? && a.JArray? && n == if |e.items| <= |a.items| then |a.items| else |e.items|
    ensures Reported(spec, location, e, a, d) <==>
              exists i: nat | i < n :: ReportedUnder(spec, location, e, a, Index(i), d)
  {
    hide ReportAt, IndexLocation, NumericTolerance;
    if Reported(spec, location, e, a, d) {
      var steps: seq<Step> :| DiffersAt(spec, e, a, steps) && ReportAt(spec, location, e, a, steps) == d;
      assert steps != [] && steps == [steps[0]] + steps[1..];
      assert steps[0].Index? && steps[0].i < n;
      assert ReportedUnder(spec, location, e, a, Index(steps[0].i), d);
    }
  }

  /** One step down, the report is that of the two values there, or of the one there is. */
  lemma UnderStep(spec: Spec, location: string, e: Json, a: Json, s: Step, d: Difference)
    requires (e.JObject? && a.JObject?) || (e.JArray? && a.JArray?)
    ensures var x, y, there := Child(e, s), Child(a, s), StepLocation(spec, location, s);
            ReportedUnder(spec, location, e, a, s, d) <==>
              if x.Some? && y.Some? then Reported(spec, there, x.value, y.value, d)
              else (x.Some? || y.Some?) && d == Difference(there, OrNull(x), OrNull(y), None)
  {
    hide Conflicts, StepLocation;
    var x, y, there := Child(e, s), Child(a, s), StepLocation(spec, location, s);
    if ReportedUnder(spec, location, e, a, s, d) {
      var rest :| DiffersAt(spec, e, a, [s] + rest) && ReportAt(spec, location, e, a, [s] + rest) == d;
      assert ([s] + rest)[0] == s && ([s] + rest)[1..] == rest;
      if x.Some? && y.Some? {
        assert DiffersAt(spec, x.value, y.value, rest) && ReportAt(spec, there, x.value, y.value, rest) == d;
      }
    }
    if x.Some? && y.Some? {
      if Reported(spec, there, x.value, y.value, d) {
        var rest :| DiffersAt(spec, x.value, y.value, rest) && ReportAt(spec, there, x.value, y.value, rest) == d;
        assert ([s] + rest)[0] == s && ([s] + rest)[1..] == rest;
        assert DiffersAt(spec, e, a, [s] + rest) && ReportAt(spec, location, e, a, [s] + rest) == d;
      }
    } else if x.Some? || y.Some? {
      assert DiffersAt(spec, e, a, [s] + []);
      assert ReportAt(spec, location, e, a, [s] + []) == Difference(there, OrNull(x), OrNull(y), None);
    }
  }

  lemma {:induction false} KeyDifferencesExactly(spec: Spec, location: string, e: Json, a: Json, keys: seq<string>,
                                                 d: Difference)
    requires e.JObject? && a.JObject?
    ensures d in KeyDifferences(spec, location, e, a, keys) <==>
              exists k | k in keys :: ReportedUnder(spec, location, e, a, Key(k), d)
    decreases e, 0, |keys|
  {
    hide ReportedUnder, Reported, Differences;
    if keys != [] {
      var init, k := keys[..|keys| - 1], keys[|keys| - 1];
      assert keys == init + [k];
      KeyDifferencesExactly(spec, location, e, a, init, d);
      UnderStep(spec, location, e, a, Key(k), d);
      if k in e.fields && k in a.fields {
        DifferencesExactly(spec, spec.keyLocation(location, k), e.fields[k], a.fields[k], d);
      }
    }
  }

  lemma {:induction false} ItemDifferencesExactly(spec: Spec, location: string, e: Json, a: Json, n: nat, d: Difference)
    requires e.JArray? && a.JArray?
    ensures d in ItemDifferences(spec, location, e, a, n) <==>
              exists i: nat | i < n :: ReportedUnder(spec, location, e, a, Index(i), d)
    decreases e, 0, n
  {
    hide ReportedUnder, Reported, Differences, IndexLocation;
    if n > 0 {
      ItemDifferencesExactly(spec, location, e, a, n - 1, d);
      UnderStep(spec, location, e, a, Index(n - 1), d);
      if n <= |e.items| && n <= |a.items| {
        DifferencesExactly(spec, IndexLocation(location, n - 1), e.items[n - 1], a.items[n - 1], d);
      }
    }
  }

  /** With both tolerances zero, only equal trees match. */
  lemma {:induction false} ZeroToleranceIsEquality(spec: Spec, e: Json, a: Json)
    requires spec.absolute == 0.0 && spec.relative == 0.0
    ensures EqualWithin(spec, e, a) <==> e == a
    decreases e
  {
    if e.JObject? && a.JObject? {
      forall k | k in e.fields && k in a.fields
        ensures EqualWithin(spec, e.fields[k], a.fields[k]) <==> e.fields[k] == a.fields[k]
      {
        ZeroToleranceIsEquality(spec, e.fields[k], a.fields[k]);
      }
      if EqualWithin(spec, e, a) {
        assert e.fields == a.fields;
      }
    } else if e.JArray? && a.JArray? {
      forall i | 0 <= i < |e.items| && i < |a.items|
        ensures EqualWithin(spec, e.items[i], a.items[i]) <==> e.items[i] == a.items[i]
      {
        ZeroToleranceIsEquality(spec, e.items[i], a.items[i]);
      }
      if EqualWithin(spec, e, a) {
        assert e.items == a.items;
      }
    } else if e.JNumber? && a.JNumber? {
      assert spec.relative * Abs(e.r) == 0.0;
    }
  }

  /** The looser spec differs only by tolerances at least as large. */
  ghost predicate Loosens(loose: Spec, tight: Spec) {
    loose.absolute >= tight.absolute && loose.relative >= tight.relative
  }

  lemma ToleranceGrows(loose: Spec, tight: Spec, x: real)
    requires Loosens(loose, tight)
    ensures NumericTolerance(loose, x) >= NumericTolerance(tight, x)
  {
    assert (loose.relative - tight.relative) * Abs(x) >= 0.0;
  }

  /** Raising either tolerance never raises the total, wherever the trees differ. */
  lemma {:induction false} LooserNeverMore(loose: Spec, tight: Spec, l: string, m: string, e: Json, a: Json)
    requires Loosens(loose, tight)
    ensures |Differences(loose, l, e, a)| <= |Differences(tight, m, e, a)|
    decreases e, 1, 0
  {
    hide SortedKeys, Decimal, NumericTolerance, Loosens;
    if e.JObject? && a.JObject? {
      LooserNeverMoreKeys(loose, tight, l, m, e, a, SortedKeys(e.fields.Keys + a.fields.Keys));
    } else if e.JArray? && a.JArray? {
      LooserNeverMoreItems(loose, tight, l, m, e, a, if |e.items| <= |a.items| then |a.items| else |e.items|);
    } else if e.JNumber? && a.JNumber? {
      ToleranceGrows(loose, tight, e.r);
    }
  }

  lemma {:induction false} LooserNeverMoreKeys(loose: Spec, tight: Spec, l: string, m: string, e: Json, a: Json,
                                               keys: seq<string>)
    requires Loosens(loose, tight) && e.JObject? && a.JObject?
    ensures |KeyDifferences(loose, l, e, a, keys)| <= |KeyDifferences(tight, m, e, a, keys)|
    decreases e, 0, |keys|
  {
    hide Differences, Loosens;
    if keys != [] {
      var k := keys[|keys| - 1];
      LooserNeverMoreKeys(loose, tight, l, m, e, a, keys[..|keys| - 1]);
      if k in e.fields && k in a.fields {
        LooserNeverMore(loose, tight, loose.keyLocation(l, k), tight.keyLocation(m, k), e.fields[k], a.fields[k]);
      }
    }
  }

  lemma {:induction false} LooserNeverMoreItems(loose: Spec, tight: Spec, l: string, m: string, e: Json, a: Json,
                                                n: nat)
    requires Loosens(loose, tight) && e.JArray? && a.JArray?
    ensures |ItemDifferences(loose, l, e, a, n)| <= |ItemDifferences(tight, m, e, a, n)|
    decreases e, 0, n
  {
    hide Differences, Decimal, Loosens;
    if n > 0 {
      LooserNeverMoreItems(loose, tight, l, m, e, a, n - 1);
      if n <= |e.items| && n <= |a.items| {
        LooserNeverMore(loose, tight, IndexLocation(l, n - 1), IndexLocation(m, n - 1), e.items[n - 1], a.items[n - 1]);
      }
    }
  }

  /** _compare_json_numeric on two parsed documents. */
  method CompareJson(spec: Spec, expected: Json, actual: Json) returns (r: Result)
    ensures var all := Differences(spec, "$", expected, actual);
            r == if all == [] then Matched else Mismatched(FirstOf(all, MAX_REPORTED_DIFFERENCES), |all|)
    ensures r.Matched? <==> EqualWithin(spec, expected, actual)
  {
    hide Differences, EqualWithin;
    NoDifferencesExactly(spec, "$", expected, actual);
    var collector := new DifferenceCollector();
    ghost var all := Differences(spec, "$", expected, actual);
    CompareJsonValue(spec, "$", expected, actual, collector, []);
    assert [] + all == all;
    r := collector.Result(all);
  }
}
