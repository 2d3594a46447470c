/** Regression-discontinuity inputs: the row check against inclusive windows, and the
    support rebuilt from strict ones (src/envresearch/econometrics/_causal_csv.py lines
    164-230; _causal_support.py lines 41-54; causal_models.py lines 284-306). Finite
    numbers are reals. */
module RddSupport {
  import opened Options
  import opened Reals

  datatype Design = Design(cutoff: real, bandwidth: real, donutRadius: real)

  datatype Row = Row(outcome: string, running: string, covariates: seq<string>, groups: seq<string>)

  datatype Window = Main | Half | OneAndAHalf | Donut

  datatype Fault = NotFinite | MissingGroup | Insufficient(window: Window)

  datatype Support = Support(
    observations: nat,
    left: nat,
    right: nat,
    leftUnique: nat,
    rightUnique: nat,
    donutLeft: nat,
    donutRight: nat)
  {
    /** The RddSupport record's own validators. */
    predicate Valid() {
      && observations > 0 && left > 0 && right > 0
      && leftUnique >= 4 && rightUnique >= 4
      && donutLeft > 0 && donutRight > 0
      && left + right == observations
      && donutLeft <= left && donutRight <= right
    }
  }

  // --------------------------------------------------------------------- the check

  /** Distinct running values within the closed window, on one side of the cutoff. */
  function Side(values: seq<real>, cutoff: real, bandwidth: real, left: bool): set<real> {
    set v | v in values && Abs(v - cutoff) <= bandwidth && (v < cutoff) == left
  }

  /** _require_cutoff_support does not raise. */
  predicate Supported(values: seq<real>, cutoff: real, bandwidth: real) {
    |Side(values, cutoff, bandwidth, true)| >= 4 && |Side(values, cutoff, bandwidth, false)| >= 4
  }

  function Keep(values: seq<real>, keep: real -> bool): seq<real> {
    if values == [] then []
    else Keep(values[..|values| - 1], keep) + (if keep(values[|values| - 1]) then [values[|values| - 1]] else [])
  }

  function OutsideDonut(d: Design): real -> bool {
    v => Abs(v - d.cutoff) >= d.donutRadius
  }

  /** The four windows, in the order they are required. */
  function WindowFault(running: seq<real>, d: Design): Option<Fault> {
    if !Supported(running, d.cutoff, d.bandwidth) then Some(Insufficient(Main))
    else if !Supported(running, d.cutoff, d.bandwidth * 0.5) then Some(Insufficient(Half))
    else if !Supported(running, d.cutoff, d.bandwidth * 1.5) then Some(Insufficient(OneAndAHalf))
    else if d.donutRadius > 0.0 && !Supported(Keep(running, OutsideDonut(d)), d.cutoff, d.bandwidth) then
      Some(Insufficient(Donut))
    else None
  }

  /** Every cell of the row that must be a finite number is one, and no group is blank. */
  predicate RowReads(parse: string -> Option<real>, row: Row) {
    && parse(row.outcome).Some?
    && parse(row.running).Some?
    && (forall i | 0 <= i < |row.covariates| :: parse(row.covariates[i]).Some?)
    && (forall i | 0 <= i < |row.groups| :: row.groups[i] != "")
  }

  function Running(parse: string -> Option<real>, rows: seq<Row>): seq<real> {
    if rows == [] then []
    else
      Running(parse, rows[..|rows| - 1])
      + [if parse(rows[|rows| - 1].running).Some? then parse(rows[|rows| - 1].running).value else 0.0]
  }

  /** _validate_rdd: nothing when the rows are accepted. */
  method ValidateRdd(parse: string -> Option<real>, rows: seq<Row>, d: Design) returns (fault: Option<Fault>)
    ensures fault.None? <==>
              (forall row | row in rows :: RowReads(parse, row)) && WindowFault(Running(parse, rows), d).None?
    ensures (forall row | row in rows :: RowReads(parse, row)) ==> fault == WindowFault(Running(parse, rows), d)
  {
    hide Supported;
    var running: seq<real> := [];
    for i := 0 to |rows|
      invariant running == Running(parse, rows[..i])
      invariant forall row | row in rows[..i] :: RowReads(parse, row)
    {
      var row := rows[i];
      assert row in rows && rows[..i + 1][..i] == rows[..i];
      if parse(row.outcome).None? || parse(row.running).None? {
        return Some(NotFinite);
      }
      running := running + [parse(row.running).value];
      for j := 0 to |row.covariates|
        invariant forall k | 0 <= k < j :: parse(row.covariates[k]).Some?
      {
        if parse(row.covariates[j]).None? {
          return Some(NotFinite);
        }
      }
      for j := 0 to |row.groups|
        invariant forall k | 0 <= k < j :: row.groups[k] != ""
      {
        if row.groups[j] == "" {
          return Some(MissingGroup);
        }
      }
    }
    assert rows[..|rows|] == rows;
    return WindowFault(running, d);
  }

  // --------------------------------------------------------------- the rebuilt support

  function Count(values: seq<real>, holds: real -> bool): nat {
    if values == [] then 0 else Count(values[..|values| - 1], holds) + (if holds(values[|values| - 1]) then 1 else 0)
  }

  function InMain(d: Design): real -> bool {
    v => Abs(v - d.cutoff) < d.bandwidth
  }

  function InMainSide(d: Design, left: bool): real -> bool {
    v => Abs(v - d.cutoff) < d.bandwidth && (v - d.cutoff < 0.0) == left
  }

  function InDonutSide(d: Design, left: bool): real -> bool {
    v => Abs(v - d.cutoff) < d.bandwidth && Abs(v - d.cutoff) >= d.donutRadius && (v - d.cutoff < 0.0) == left
  }

  /** Distinct centered values within the open window, on one side. */
  function Centered(running: seq<real>, d: Design, left: bool): set<real> {
    set v | v in running && Abs(v - d.cutoff) < d.bandwidth && (v - d.cutoff < 0.0) == left :: v - d.cutoff
  }

  /** _expected_support for a discontinuity design. */
  function ExpectedSupport(running: seq<real>, d: Design): Support {
    Support(
      Count(running, InMain(d)),
      Count(running, InMainSide(d, true)),
      Count(running, InMainSide(d, false)),
      |Centered(running, d, true)|,
      |Centered(running, d, false)|,
      Count(running, InDonutSide(d, true)),
      Count(running, InDonutSide(d, false)))
  }

  // ------------------------------------------------------------------------ counting

  lemma {:induction false} CountSplits(values: seq<real>, f: real -> bool, g: real -> bool, h: real -> bool)
    requires forall v :: f(v) == (g(v) || h(v)) && !(g(v) && h(v))
    ensures Count(values, f) == Count(values, g) + Count(values, h)
  {
    if values != [] {
      CountSplits(values[..|values| - 1], f, g, h);
    }
  }

  lemma {:induction false} CountMonotone(values: seq<real>, f: real -> bool, g: real -> bool)
    requires forall v :: f(v) ==> g(v)
    ensures Count(values, f) <= Count(values, g)
  {
    if values != [] {
      CountMonotone(values[..|values| - 1], f, g);
    }
  }

  lemma {:induction false} CountPositive(values: seq<real>, f: real -> bool, v: real)
    requires v in values && f(v)
    ensures Count(values, f) > 0
  {
    if v != values[|values| - 1] {
      assert v in values[..|values| - 1];
      CountPositive(values[..|values| - 1], f, v);
    }
  }

  lemma {:induction false} KeepMembers(values: seq<real>, keep: real -> bool)
    ensures forall v :: v in Keep(values, keep) <==> v in values && keep(v)
  {
    if values != [] {
      KeepMembers(values[..|values| - 1], keep);
      assert values == values[..|values| - 1] + [values[|values| - 1]];
    }
  }

  lemma SubsetCount(a: set<real>, b: set<real>)
    requires a <= b
    ensures |a| <= |b|
  {
    assert b == a + (b - a);
  }

  function Chosen(values: seq<real>, keep: real -> bool): set<real> {
    set v | v in values && keep(v)
  }

  function Shifted(values: seq<real>, keep: real -> bool, offset: real): set<real> {
    set v | v in values && keep(v) :: v - offset
  }

  /** Centering merges no two values. */
  lemma {:induction false} ShiftCount(values: seq<real>, keep: real -> bool, offset: real)
    ensures |Shifted(values, keep, offset)| == |Chosen(values, keep)|
  {
    if values != [] {
      hide Chosen, Shifted;
      var init, last := values[..|values| - 1], values[|values| - 1];
      ShiftCount(init, keep, offset);
      assert values == init + [last];
      ShiftSnoc(init, last, keep, offset);
    }
  }

  lemma ShiftSnoc(init: seq<real>, last: real, keep: real -> bool, offset: real)
    ensures var isNew := keep(last) && last !in init;
            && Chosen(init + [last], keep) == Chosen(init, keep) + (if isNew then {last} else {})
            && Shifted(init + [last], keep, offset)
              == Shifted(init, keep, offset) + (if isNew then {last - offset} else {})
            && (isNew ==> last !in Chosen(init, keep) && last - offset !in Shifted(init, keep, offset))
  {
    assert forall v :: v in init + [last] <==> v in init || v == last;
  }

  // -------------------------------------------------------- what is counted, spelled out

  lemma {:induction false} CountIsIndices(values: seq<real>, holds: real -> bool)
    ensures Count(values, holds) == |set i | 0 <= i < |values| && holds(values[i])|
  {
    CountOfFirst(values, holds, |values|);
    assert values[..|values|] == values;
  }

  lemma {:induction false} CountOfFirst(values: seq<real>, holds: real -> bool, n: nat)
    requires n <= |values|
    ensures Count(values[..n], holds) == |set i | 0 <= i < n && holds(values[i])|
  {
    var all := set i | 0 <= i < n && holds(values[i]);
    if n == 0 {
      assert all == {};
    } else {
      CountOfFirst(values, holds, n - 1);
      var earlier := set i | 0 <= i < n - 1 && holds(values[i]);
      assert all == earlier + (if holds(values[n - 1]) then {n - 1} else {});
      assert values[..n][..n - 1] == values[..n - 1];
    }
  }

  /** The number of rows whose value lies in a half-open or open interval. */
  ghost function RowsWithin(values: seq<real>, low: real, high: real, closed: bool): nat {
    |set i | 0 <= i < |values| && (low < values[i] || (closed && low == values[i])) && values[i] < high|
  }

  lemma CountWithin(values: seq<real>, holds: real -> bool, low: real, high: real, closed: bool)
    requires forall v :: holds(v) <==> (low < v || (closed && low == v)) && v < high
    ensures Count(values, holds) == RowsWithin(values, low, high, closed)
  {
    CountIsIndices(values, holds);
    assert (set i | 0 <= i < |values| && holds(values[i]))
        == set i | 0 <= i < |values| && (low < values[i] || (closed && low == values[i])) && values[i] < high;
  }

  lemma SidesSpelled(d: Design)
    ensures forall v :: InMain(d)(v) <==> d.cutoff - d.bandwidth < v < d.cutoff + d.bandwidth
    ensures forall v :: InMainSide(d, true)(v) <==> InMain(d)(v) && v < d.cutoff
    ensures forall v :: InMainSide(d, false)(v) <==> InMain(d)(v) && d.cutoff <= v
    ensures forall v :: InDonutSide(d, true)(v) <==> InMainSide(d, true)(v) && Abs(v - d.cutoff) >= d.donutRadius
    ensures forall v :: InDonutSide(d, false)(v) <==> InMainSide(d, false)(v) && Abs(v - d.cutoff) >= d.donutRadius
  {
    forall v
      ensures InMain(d)(v) <==> d.cutoff - d.bandwidth < v < d.cutoff + d.bandwidth
      ensures InMainSide(d, true)(v) <==> InMain(d)(v) && v < d.cutoff
      ensures InMainSide(d, false)(v) <==> InMain(d)(v) && d.cutoff <= v
      ensures InDonutSide(d, true)(v) <==> InMainSide(d, true)(v) && Abs(v - d.cutoff) >= d.donutRadius
      ensures InDonutSide(d, false)(v) <==> InMainSide(d, false)(v) && Abs(v - d.cutoff) >= d.donutRadius
    {
      var offset := v - d.cutoff;
      assert Abs(offset) < d.bandwidth <==> -d.bandwidth < offset < d.bandwidth;
    }
  }

  /** Every number of the rebuilt support, in terms of rows and intervals: left of the
      cutoff excludes it, right of it includes it, and the bandwidth's ends are out. */
  lemma SupportSpelled(running: seq<real>, d: Design)
    ensures var s, low, high := ExpectedSupport(running, d), d.cutoff - d.bandwidth, d.cutoff + d.bandwidth;
            && s.observations == RowsWithin(running, low, high, false)
            && s.left == RowsWithin(running, low, d.cutoff, false)
            && (d.bandwidth > 0.0 ==> s.right == RowsWithin(running, d.cutoff, high, true))
            && s.leftUnique == |set v | v in running && low < v < d.cutoff|
            && (d.bandwidth > 0.0 ==> s.rightUnique == |set v | v in running && d.cutoff <= v < high|)
  {
    hide Count, RowsWithin;
    var low, high := d.cutoff - d.bandwidth, d.cutoff + d.bandwidth;
    SidesSpelled(d);
    CountWithin(running, InMain(d), low, high, false);
    CountWithin(running, InMainSide(d, true), low, d.cutoff, false);
    if d.bandwidth > 0.0 {
      CountWithin(running, InMainSide(d, false), d.cutoff, high, true);
      ShiftCount(running, InMainSide(d, false), d.cutoff);
      assert Chosen(running, InMainSide(d, false)) == set v | v in running && d.cutoff <= v < high;
      assert Shifted(running, InMainSide(d, false), d.cutoff) == Centered(running, d, false);
    }
    ShiftCount(running, InMainSide(d, true), d.cutoff);
    assert Chosen(running, InMainSide(d, true)) == set v | v in running && low < v < d.cutoff;
    assert Shifted(running, InMainSide(d, true), d.cutoff) == Centered(running, d, true);
  }

  /** The donut counts leave out the rows strictly within its radius. */
  lemma DonutSpelled(running: seq<real>, d: Design)
    requires 0.0 <= d.donutRadius < d.bandwidth
    ensures var s, low, high := ExpectedSupport(running, d), d.cutoff - d.bandwidth, d.cutoff + d.bandwidth;
            && s.donutRight == RowsWithin(running, d.cutoff + d.donutRadius, high, true)
            && s.donutLeft + RowsWithin(running, d.cutoff - d.donutRadius, d.cutoff, false)
               == RowsWithin(running, low, d.cutoff, false)
  {
    hide Count, RowsWithin;
    SidesSpelled(d);
    var low, high, inner := d.cutoff - d.bandwidth, d.cutoff + d.bandwidth, d.cutoff - d.donutRadius;
    CountWithin(running, InDonutSide(d, false), d.cutoff + d.donutRadius, high, true);
    var within := (v: real) => inner < v < d.cutoff;
    CountWithin(running, within, inner, d.cutoff, false);
    CountWithin(running, InMainSide(d, true), low, d.cutoff, false);
    CountSplits(running, InMainSide(d, true), InDonutSide(d, true), within);
  }

  /** Four distinct values on each side, in the closed window. */
  lemma SupportedSpelled(values: seq<real>, cutoff: real, bandwidth: real)
    ensures Supported(values, cutoff, bandwidth) <==>
              && |set v | v in values && cutoff - bandwidth <= v < cutoff| >= 4
              && (|set v | v in values && cutoff <= v <= cutoff + bandwidth| >= 4)
  {
    assert Side(values, cutoff, bandwidth, true) == set v | v in values && cutoff - bandwidth <= v < cutoff;
    assert Side(values, cutoff, bandwidth, false) == set v | v in values && cutoff <= v <= cutoff + bandwidth;
  }

  /** The first of the four windows that lacks support is the one reported. */
  lemma WindowFaultExactly(running: seq<real>, d: Design)
    ensures var main := Supported(running, d.cutoff, d.bandwidth);
            var half := Supported(running, d.cutoff, d.bandwidth / 2.0);
            var wide := Supported(running, d.cutoff, d.bandwidth + d.bandwidth / 2.0);
            && (WindowFault(running, d) == Some(Insufficient(Main)) <==> !main)
            && (WindowFault(running, d) == Some(Insufficient(Half)) <==> main && !half)
            && (WindowFault(running, d) == Some(Insufficient(OneAndAHalf)) <==> main && half && !wide)
            && (WindowFault(running, d) == Some(Insufficient(Donut)) <==>
                  main && half && wide && d.donutRadius > 0.0 &&
                  !Supported(Keep(running, OutsideDonut(d)), d.cutoff, d.bandwidth))
            && WindowFault(running, d) != Some(NotFinite) && WindowFault(running, d) != Some(MissingGroup)
  {
    assert d.bandwidth * 0.5 == d.bandwidth / 2.0 && d.bandwidth * 1.5 == d.bandwidth + d.bandwidth / 2.0;
    hide Supported, Keep;
  }

  /** The running values are the rows' own, in order. */
  lemma {:induction false} RunningAt(parse: string -> Option<real>, rows: seq<Row>)
    requires forall row | row in rows :: RowReads(parse, row)
    ensures |Running(parse, rows)| == |rows|
    ensures forall i | 0 <= i < |rows| :: parse(rows[i].running) == Some(Running(parse, rows)[i])
  {
    if rows != [] {
      var init := rows[..|rows| - 1];
      RunningAt(parse, init);
      assert rows[|rows| - 1] in rows;
      assert forall i | 0 <= i < |init| :: init[i] == rows[i];
    }
  }

  // --------------------------------------------------------------------- main results

  lemma SideGrows(values: seq<real>, cutoff: real, narrow: real, wide: real, left: bool)
    requires narrow <= wide
    ensures |Side(values, cutoff, narrow, left)| <= |Side(values, cutoff, wide, left)|
  {
    SubsetCount(Side(values, cutoff, narrow, left), Side(values, cutoff, wide, left));
  }

  lemma SupportedIsPositive(values: seq<real>, cutoff: real, bandwidth: real)
    requires Supported(values, cutoff, bandwidth)
    ensures bandwidth > 0.0
  {
    assert Side(values, cutoff, bandwidth, true) != {};
    var v :| v in Side(values, cutoff, bandwidth, true);
  }

  /** The half-bandwidth check implies the main and the one-and-a-half checks, so the
      rows are accepted exactly when it and the donut check pass. */
  lemma HalfDecides(running: seq<real>, d: Design)
    ensures WindowFault(running, d).None? <==>
            && Supported(running, d.cutoff, d.bandwidth * 0.5)
            && (d.donutRadius > 0.0 ==> Supported(Keep(running, OutsideDonut(d)), d.cutoff, d.bandwidth))
  {
    hide Side, Keep;
    if Supported(running, d.cutoff, d.bandwidth * 0.5) {
      SupportedIsPositive(running, d.cutoff, d.bandwidth * 0.5);
      SideGrows(running, d.cutoff, d.bandwidth * 0.5, d.bandwidth, true);
      SideGrows(running, d.cutoff, d.bandwidth * 0.5, d.bandwidth, false);
      SideGrows(running, d.cutoff, d.bandwidth * 0.5, d.bandwidth * 1.5, true);
      SideGrows(running, d.cutoff, d.bandwidth * 0.5, d.bandwidth * 1.5, false);
    }
  }

  /** At most one value of a side lies on the window's edge. */
  lemma InsideEdge(values: seq<real>, cutoff: real, bandwidth: real, left: bool) returns (v: real)
    requires |Side(values, cutoff, bandwidth, left)| >= 2
    ensures v in values && Abs(v - cutoff) < bandwidth && (v < cutoff) == left
  {
    var side := Side(values, cutoff, bandwidth, left);
    var edge := if left then cutoff - bandwidth else cutoff + bandwidth;
    assert side - {edge} != {} by {
      SubsetCount(side, (side - {edge}) + {edge});
    }
    v :| v in side - {edge};
  }

  lemma UniqueEnough(running: seq<real>, d: Design, left: bool)
    requires d.bandwidth > 0.0
    ensures |Centered(running, d, left)| >= |Side(running, d.cutoff, d.bandwidth * 0.5, left)|
  {
    var half := (v: real) => Abs(v - d.cutoff) <= d.bandwidth * 0.5 && (v < d.cutoff) == left;
    assert Chosen(running, half) == Side(running, d.cutoff, d.bandwidth * 0.5, left);
    ShiftCount(running, half, d.cutoff);
    SubsetCount(Shifted(running, half, d.cutoff), Centered(running, d, left));
  }

  lemma DonutSidePositive(running: seq<real>, d: Design, left: bool)
    requires WindowFault(running, d).None?
    ensures Count(running, InDonutSide(d, left)) > 0
  {
    HalfDecides(running, d);
    if d.donutRadius > 0.0 {
      var v := InsideEdge(Keep(running, OutsideDonut(d)), d.cutoff, d.bandwidth, left);
      KeepMembers(running, OutsideDonut(d));
      CountPositive(running, InDonutSide(d, left), v);
    } else {
      var v := InsideEdge(running, d.cutoff, d.bandwidth, left);
      CountPositive(running, InDonutSide(d, left), v);
    }
  }

  /** Every accepted list of running values, for any design whatever, rebuilds to
      support that the support record accepts. */
  lemma AcceptedSupportIsValid(running: seq<real>, d: Design)
    requires WindowFault(running, d).None?
    ensures ExpectedSupport(running, d).Valid()
  {
    hide Side, Keep, Centered, Count;
    HalfDecides(running, d);
    SupportedIsPositive(running, d.cutoff, d.bandwidth * 0.5);
    CountSplits(running, InMain(d), InMainSide(d, true), InMainSide(d, false));
    UniqueEnough(running, d, true);
    UniqueEnough(running, d, false);
    DonutSidePositive(running, d, true);
    DonutSidePositive(running, d, false);
    CountMonotone(running, InDonutSide(d, true), InMainSide(d, true));
    CountMonotone(running, InDonutSide(d, false), InMainSide(d, false));
  }
}
