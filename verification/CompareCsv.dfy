/** The comparison of numeric tables
    (src/envresearch/benchmarks/compare.py lines 231-303). */
module CompareCsv {
  import opened Options
  import opened Reals
  import opened Sequences
  import opened Text
  import opened JsonPointers
  import opened Compare

  datatype Table = Table(headers: seq<string>, rows: seq<seq<string>>)

  predicate Rectangular(t: Table) {
    forall i | 0 <= i < |t.rows| :: |t.rows[i]| == |t.headers|
  }

  /** _read_csv on tokenised rows: a header row without duplicates, then rows of the
      same width; anything else is an error. */
  function ReadTable(rows: seq<seq<string>>): (t: Option<Table>)
    ensures t.Some? ==> rows == [t.value.headers] + t.value.rows && Distinct(t.value.headers) && Rectangular(t.value)
    ensures t.Some? <==> rows != [] && Distinct(rows[0]) && forall i | 0 < i < |rows| :: |rows[i]| == |rows[0]|
  {
    if rows == [] || !Distinct(rows[0]) || !Rectangular(Table(rows[0], rows[1..])) then
      assert rows != [] && !Rectangular(Table(rows[0], rows[1..])) ==>
        exists i | 0 < i < |rows| :: |rows[i]| != |rows[0]| by {
        if rows != [] && !Rectangular(Table(rows[0], rows[1..])) {
          var i :| 0 <= i < |rows[1..]| && |rows[1..][i]| != |rows[0]|;
          assert rows[i + 1] == rows[1..][i];
        }
      }
      None
    else
      assert forall i | 0 < i < |rows| :: rows[i] == rows[1..][i - 1];
      Some(Table(rows[0], rows[1..]))
  }

  /** headers.index(header), or the length when absent. */
  function IndexOf(headers: seq<string>, header: string): (i: nat)
    ensures i <= |headers| && forall k | 0 <= k < i :: headers[k] != header
    ensures i < |headers| <==> header in headers
    ensures i < |headers| ==> headers[i] == header
  {
    if headers == [] then 0 else if headers[0] == header then 0
    else
      assert headers == [headers[0]] + headers[1..];
      assert forall k | 1 <= k < |headers| :: headers[k] == headers[1..][k - 1];
      IndexOf(headers[1..], header) + 1
  }

  // --------------------------------------------------------- the sequence specified

  /** f(0) + ... + f(n - 1). */
  function Gather(n: nat, f: nat -> seq<Difference>): seq<Difference> {
    if n == 0 then [] else Gather(n - 1, f) + f(n - 1)
  }

  lemma {:induction false} GatherEmpty(n: nat, f: nat -> seq<Difference>)
    ensures Gather(n, f) == [] <==> forall i: nat | i < n :: f(i) == []
  {
    if n > 0 {
      GatherEmpty(n - 1, f);
    }
  }

  lemma {:induction false} GatherMonotone(n: nat, f: nat -> seq<Difference>, g: nat -> seq<Difference>)
    requires forall i: nat | i < n :: |f(i)| <= |g(i)|
    ensures |Gather(n, f)| <= |Gather(n, g)|
  {
    if n > 0 {
      GatherMonotone(n - 1, f, g);
    }
  }

  function HeaderAt(e: Table, a: Table): nat -> seq<Difference> {
    (j: nat) =>
      if j >= |e.headers| || (j < |a.headers| && e.headers[j] == a.headers[j]) then []
      else
        var shown := if j < |a.headers| then JString(a.headers[j]) else JNull;
        [Difference("row=0,column=" + e.headers[j], JString(e.headers[j]), shown, None)]
  }

  function ExtraHeaderAt(e: Table, a: Table): nat -> seq<Difference> {
    (j: nat) =>
      if |e.headers| + j >= |a.headers| then []
      else [Difference("row=0,column=" + a.headers[|e.headers| + j], JNull, JString(a.headers[|e.headers| + j]), None)]
  }

  function RowCounts(e: Table, a: Table): seq<Difference> {
    if |e.rows| == |a.rows| then []
    else [Difference("rows", JNumber(|e.rows| as real), JNumber(|a.rows| as real), None)]
  }

  /** _compare_csv_value: whether the cells differ, and the tolerance when both are numbers. */
  function CompareCell(spec: Spec, e: string, a: string): (bool, Option<real>) {
    var en, an := spec.parseFloat(e), spec.parseFloat(a);
    if en.Some? && an.Some? then
      var tolerance := NumericTolerance(spec, en.value);
      if NumbersMatch(en.value, an.value, tolerance) then (false, None) else (true, Some(tolerance))
    else (e != a, None)
  }

  function CellLocation(row: nat, header: string): string {
    "row=" + Decimal(row + 1) + ",column=" + header
  }

  /** What one cell of a shared row contributes, against the actual column given. */
  function CellDifference(spec: Spec, e: Table, a: Table, i: nat, j: nat, column: nat): seq<Difference>
    requires i < |e.rows| && i < |a.rows| && j < |e.headers| && j < |e.rows[i]| && column < |a.rows[i]|
  {
    var (differs, tolerance) := CompareCell(spec, e.rows[i][j], a.rows[i][column]);
    if differs then
      [Difference(CellLocation(i, e.headers[j]), JString(e.rows[i][j]), JString(a.rows[i][column]), tolerance)]
    else []
  }

  function CellAt(spec: Spec, e: Table, a: Table, i: nat): nat -> seq<Difference> {
    (j: nat) =>
      if i >= |e.rows| || i >= |a.rows| || j >= |e.headers| || j >= |e.rows[i]| || e.headers[j] !in a.headers then []
      else
        var column := IndexOf(a.headers, e.headers[j]);
        if column >= |a.rows[i]| then [] else CellDifference(spec, e, a, i, j, column)
  }

  function RowAt(spec: Spec, e: Table, a: Table): nat -> seq<Difference> {
    (i: nat) => Gather(|e.headers|, CellAt(spec, e, a, i))
  }

  function Least(x: nat, y: nat): nat { if x <= y then x else y }

  function ExtraCount(e: Table, a: Table): nat {
    if |a.headers| <= |e.headers| then 0 else |a.headers| - |e.headers|
  }

  function CsvDifferences(spec: Spec, e: Table, a: Table): seq<Difference> {
    Gather(|e.headers|, HeaderAt(e, a)) +
    Gather(ExtraCount(e, a), ExtraHeaderAt(e, a)) +
    RowCounts(e, a) +
    Gather(Least(|e.rows|, |a.rows|), RowAt(spec, e, a))
  }

  // ----------------------------------------------------------------- the comparison

  /** The loop over expected headers. */
  method CompareExpectedHeaders(e: Table, a: Table, collector: DifferenceCollector)
    requires collector.Records([])
    modifies collector
    ensures collector.Records(Gather(|e.headers|, HeaderAt(e, a)))
  {
    hide DifferenceCollector.Records;
    ghost var header := HeaderAt(e, a);
    for j := 0 to |e.headers|
      invariant collector.Records(Gather(j, header))
    {
      var actualHeader := if j < |a.headers| then Some(a.headers[j]) else None;
      if Some(e.headers[j]) != actualHeader {
        var shown := if actualHeader.Some? then JString(actualHeader.value) else JNull;
        collector.Add(Difference("row=0,column=" + e.headers[j], JString(e.headers[j]), shown, None),
                      Gather(j, header));
      } else {
        assert Gather(j, header) + [] == Gather(j, header);
      }
    }
  }

  /** The loop over the actual headers beyond the expected ones. */
  method CompareExtraHeaders(e: Table, a: Table, collector: DifferenceCollector, ghost before: seq<Difference>)
    requires collector.Records(before)
    modifies collector
    ensures collector.Records(before + Gather(ExtraCount(e, a), ExtraHeaderAt(e, a)))
  {
    hide DifferenceCollector.Records;
    ghost var header := ExtraHeaderAt(e, a);
    var extra := if |a.headers| <= |e.headers| then [] else a.headers[|e.headers|..];
    assert before + Gather(0, header) == before;
    for j := 0 to |extra|
      invariant collector.Records(before + Gather(j, header))
    {
      collector.Add(Difference("row=0,column=" + extra[j], JNull, JString(extra[j]), None), before + Gather(j, header));
      Regroup(before, Gather(j, header), header(j));
    }
  }

  method CompareRowCounts(e: Table, a: Table, collector: DifferenceCollector, ghost before: seq<Difference>)
    requires collector.Records(before)
    modifies collector
    ensures collector.Records(before + RowCounts(e, a))
  {
    hide DifferenceCollector.Records;
    if |e.rows| != |a.rows| {
      collector.Add(Difference("rows", JNumber(|e.rows| as real), JNumber(|a.rows| as real), None), before);
    } else {
      assert before + [] == before;
    }
  }

  lemma CellAtIs(spec: Spec, e: Table, a: Table, i: nat, j: nat)
    requires Rectangular(e) && Rectangular(a) && i < |e.rows| && i < |a.rows| && j < |e.headers|
    ensures CellAt(spec, e, a, i)(j) ==
            if e.headers[j] !in a.headers then []
            else CellDifference(spec, e, a, i, j, IndexOf(a.headers, e.headers[j]))
  {
    hide CompareCell, CellLocation;
  }

  lemma GatherNext(n: nat, f: nat -> seq<Difference>, before: seq<Difference>)
    ensures before + Gather(n + 1, f) == before + Gather(n, f) + f(n)
    ensures f(n) == [] ==> before + Gather(n + 1, f) == before + Gather(n, f)
    ensures before + Gather(0, f) == before
  {
    assert before + (Gather(n, f) + f(n)) == before + Gather(n, f) + f(n);
  }

  /** The inner loop, over one shared row. */
  method CompareRow(spec: Spec, e: Table, a: Table, i: nat, collector: DifferenceCollector,
                    ghost before: seq<Difference>)
    requires Rectangular(e) && Rectangular(a) && i < |e.rows| && i < |a.rows| && collector.Records(before)
    modifies collector
    ensures collector.Records(before + RowAt(spec, e, a)(i))
  {
    hide DifferenceCollector.Records, CompareCell, CellLocation, CellAt, Gather, IndexOf;
    ghost var cell := CellAt(spec, e, a, i);
    GatherNext(0, cell, before);
    for j := 0 to |e.headers|
      invariant collector.Records(before + Gather(j, cell))
    {
      CellAtIs(spec, e, a, i, j);
      GatherNext(j, cell, before);
      var header := e.headers[j];
      if header !in a.headers {
        continue;
      }
      var column := IndexOf(a.headers, header);
      var (mismatched, tolerance) := CompareCell(spec, e.rows[i][j], a.rows[i][column]);
      if mismatched {
        collector.Add(Difference(CellLocation(i, header), JString(e.rows[i][j]), JString(a.rows[i][column]), tolerance),
                      before + Gather(j, cell));
      }
    }
  }

  /** The loop over shared rows. */
  method CompareRows(spec: Spec, e: Table, a: Table, collector: DifferenceCollector, ghost before: seq<Difference>)
    requires Rectangular(e) && Rectangular(a) && collector.Records(before)
    modifies collector
    ensures collector.Records(before + Gather(Least(|e.rows|, |a.rows|), RowAt(spec, e, a)))
  {
    hide DifferenceCollector.Records, RowAt;
    ghost var row := RowAt(spec, e, a);
    assert before + Gather(0, row) == before;
    for i := 0 to Least(|e.rows|, |a.rows|)
      invariant collector.Records(before + Gather(i, row))
    {
      CompareRow(spec, e, a, i, collector, before + Gather(i, row));
      Regroup(before, Gather(i, row), row(i));
    }
  }

  /** _compare_csv_numeric on two read tables. */
  method CompareCsv(spec: Spec, e: Table, a: Table) returns (r: Result)
    requires Rectangular(e) && Rectangular(a) && Distinct(e.headers) && Distinct(a.headers)
    ensures var all := CsvDifferences(spec, e, a);
            r == if all == [] then Matched else Mismatched(FirstOf(all, MAX_REPORTED_DIFFERENCES), |all|)
    ensures r.Matched? <==> TablesMatch(spec, e, a)
  {
    hide *;
    NoCsvDifferencesExactly(spec, e, a);
    var collector := new DifferenceCollector();
    CompareExpectedHeaders(e, a, collector);
    ghost var all := Gather(|e.headers|, HeaderAt(e, a));
    CompareExtraHeaders(e, a, collector, all);
    all := all + Gather(ExtraCount(e, a), ExtraHeaderAt(e, a));
    CompareRowCounts(e, a, collector, all);
    all := all + RowCounts(e, a);
    CompareRows(spec, e, a, collector, all);
    all := all + Gather(Least(|e.rows|, |a.rows|), RowAt(spec, e, a));
    CsvDifferencesIs(spec, e, a);
    r := collector.Result(all);
  }

  lemma CsvDifferencesIs(spec: Spec, e: Table, a: Table)
    ensures CsvDifferences(spec, e, a) ==
            Gather(|e.headers|, HeaderAt(e, a)) + Gather(ExtraCount(e, a), ExtraHeaderAt(e, a)) + RowCounts(e, a) +
            Gather(Least(|e.rows|, |a.rows|), RowAt(spec, e, a))
  {
  }

  // --------------------------------------------------------------- what it decides

  predicate CellsMatch(spec: Spec, e: string, a: string) {
    var en, an := spec.parseFloat(e), spec.parseFloat(a);
    if en.Some? && an.Some? then Abs(an.value - en.value) <= spec.absolute + spec.relative * Abs(en.value) else e == a
  }

  /** Equal headers in order, equally many rows, every cell within its tolerance. */
  predicate TablesMatch(spec: Spec, e: Table, a: Table) {
    && e.headers == a.headers
    && |e.rows| == |a.rows|
    && forall i, j | 0 <= i < |e.rows| && 0 <= j < |e.rows[i]| && j < |a.rows[i]| ::
         CellsMatch(spec, e.rows[i][j], a.rows[i][j])
  }

  lemma NoHeaderDifferences(e: Table, a: Table)
    ensures e.headers == a.headers <==>
            Gather(|e.headers|, HeaderAt(e, a)) == [] &&
            Gather(ExtraCount(e, a), ExtraHeaderAt(e, a)) == []
  {
    hide Gather;
    GatherEmpty(|e.headers|, HeaderAt(e, a));
    GatherEmpty(ExtraCount(e, a), ExtraHeaderAt(e, a));
    if |a.headers| > |e.headers| {
      assert ExtraHeaderAt(e, a)(0) != [];
    } else if forall j: nat | j < |e.headers| :: HeaderAt(e, a)(j) == [] {
      forall j: nat | j < |e.headers| ensures j < |a.headers| && e.headers[j] == a.headers[j] {
        assert HeaderAt(e, a)(j) == [];
      }
      if e.headers != [] {
        var last: nat := |e.headers| - 1;
        assert HeaderAt(e, a)(last) == [];
      }
      assert e.headers == a.headers;
    }
  }

  lemma CellAtSame(spec: Spec, e: Table, a: Table, i: nat, j: nat)
    requires Rectangular(e) && Rectangular(a) && Distinct(a.headers) && e.headers == a.headers
    requires i < |e.rows| == |a.rows| && j < |e.headers|
    ensures CellAt(spec, e, a, i)(j) == [] <==> CellsMatch(spec, e.rows[i][j], a.rows[i][j])
  {
    var column := IndexOf(a.headers, e.headers[j]);
    assert a.headers[j] == e.headers[j];
  }

  lemma NoCsvDifferencesExactly(spec: Spec, e: Table, a: Table)
    requires Rectangular(e) && Rectangular(a) && Distinct(a.headers)
    ensures CsvDifferences(spec, e, a) == [] <==> TablesMatch(spec, e, a)
  {
    hide Gather, HeaderAt, ExtraHeaderAt, CellAt, CellsMatch;
    NoHeaderDifferences(e, a);
    if e.headers == a.headers && |e.rows| == |a.rows| {
      GatherEmpty(|e.rows|, RowAt(spec, e, a));
      forall i: nat | i < |e.rows|
        ensures RowAt(spec, e, a)(i) == [] <==>
                  forall j: nat | j < |e.headers| :: CellsMatch(spec, e.rows[i][j], a.rows[i][j])
      {
        GatherEmpty(|e.headers|, CellAt(spec, e, a, i));
        forall j: nat | j < |e.headers|
          ensures CellAt(spec, e, a, i)(j) == [] <==> CellsMatch(spec, e.rows[i][j], a.rows[i][j])
        {
          CellAtSame(spec, e, a, i, j);
        }
      }
    }
  }

  /** The location of a cell names its row, counted from one, and its column. */
  lemma CellLocationNames(i: nat, header: string, k: nat, other: string)
    ensures CellLocation(i, header) == CellLocation(k, other) <==> i == k && header == other
  {
    hide Decimal;
    var x, y := CellLocation(i, header), CellLocation(k, other);
    DecimalRoundTrip(i + 1);
    DecimalRoundTrip(k + 1);
    var p, q := "row=" + Decimal(i + 1), "row=" + Decimal(k + 1);
    var s, t := "column=" + header, "column=" + other;
    assert x == p + [','] + s && y == q + [','] + t;
    SplitPart(p, ',', s);
    SplitPart(q, ',', t);
    if x == y {
      assert Split(x, ',')[0] == p && Split(y, ',')[0] == q;
      assert p[4..] == Decimal(i + 1) && q[4..] == Decimal(k + 1);
      assert x[|p| + 8..] == header && y[|q| + 8..] == other;
    }
  }

  // ------------------------------------------------- what each difference reports

  lemma {:induction false} GatherMembers(n: nat, f: nat -> seq<Difference>, d: Difference)
    ensures d in Gather(n, f) <==> exists i: nat | i < n :: d in f(i)
  {
    if n > 0 {
      GatherMembers(n - 1, f, d);
    }
  }

  /** The j-th header is not the same on both sides: what each side has there, null for nothing. */
  ghost predicate HeaderReport(e: Table, a: Table, d: Difference) {
    exists j: nat ::
      && (j < |e.headers| || j < |a.headers|) && !(j < |e.headers| && j < |a.headers| && e.headers[j] == a.headers[j])
      && d == Difference("row=0,column=" + (if j < |e.headers| then e.headers[j] else a.headers[j]),
                         HeaderText(e.headers, j), HeaderText(a.headers, j), None)
  }

  function HeaderText(headers: seq<string>, j: nat): Json {
    if j < |headers| then JString(headers[j]) else JNull
  }

  ghost predicate CountReport(e: Table, a: Table, d: Difference) {
    |e.rows| != |a.rows| && d == Difference("rows", JNumber(|e.rows| as real), JNumber(|a.rows| as real), None)
  }

  /** Two cells of a shared row under the same header do not match: the expected text, then
      the actual one, with the tolerance when both read as numbers. */
  ghost predicate CellReport(spec: Spec, e: Table, a: Table, d: Difference) {
    exists i: nat, j: nat, k: nat ::
      && i < |e.rows| && i < |a.rows| && j < |e.headers| && j < |e.rows[i]| && k < |a.headers| && k < |a.rows[i]|
      && CellReportAt(spec, e, a, i, j, k, d)
  }

  ghost predicate CellReportAt(spec: Spec, e: Table, a: Table, i: nat, j: nat, k: nat, d: Difference)
    requires i < |e.rows| && i < |a.rows| && j < |e.headers| && j < |e.rows[i]| && k < |a.headers| && k < |a.rows[i]|
  {
    var x, y := e.rows[i][j], a.rows[i][k];
    var xn, yn := spec.parseFloat(x), spec.parseFloat(y);
    && a.headers[k] == e.headers[j] && !CellsMatch(spec, x, y)
    && d == Difference("row=" + Decimal(i + 1) + ",column=" + e.headers[j], JString(x), JString(y),
                       if xn.Some? && yn.Some? then Some(NumericTolerance(spec, xn.value)) else None)
  }

  /** A difference is listed exactly when it reports a header, the row count or a cell. */
  lemma CsvDifferencesExactly(spec: Spec, e: Table, a: Table, d: Difference)
    requires Rectangular(e) && Rectangular(a) && Distinct(a.headers)
    ensures d in CsvDifferences(spec, e, a) <==>
              HeaderReport(e, a, d) || CountReport(e, a, d) || CellReport(spec, e, a, d)
  {
    hide Gather, CellReport, HeaderReport, HeaderAt, ExtraHeaderAt, RowAt;
    HeadersReported(e, a, d);
    RowsReported(spec, e, a, d);
  }

  lemma HeadersReported(e: Table, a: Table, d: Difference)
    ensures d in Gather(|e.headers|, HeaderAt(e, a)) || d in Gather(ExtraCount(e, a), ExtraHeaderAt(e, a)) <==>
              HeaderReport(e, a, d)
  {
    hide Gather;
    GatherMembers(|e.headers|, HeaderAt(e, a), d);
    GatherMembers(ExtraCount(e, a), ExtraHeaderAt(e, a), d);
    if d in Gather(ExtraCount(e, a), ExtraHeaderAt(e, a)) {
      var i: nat :| i < ExtraCount(e, a) && d in ExtraHeaderAt(e, a)(i);
      var j := |e.headers| + i;
      assert j < |a.headers| && HeaderText(e.headers, j) == JNull && HeaderText(a.headers, j) == JString(a.headers[j]);
    }
    if d in Gather(|e.headers|, HeaderAt(e, a)) {
      var j: nat :| j < |e.headers| && d in HeaderAt(e, a)(j);
      assert HeaderText(e.headers, j) == JString(e.headers[j]);
    }
    if HeaderReport(e, a, d) {
      var j: nat :|
        && (j < |e.headers| || j < |a.headers|) && !(j < |e.headers| && j < |a.headers| && e.headers[j] == a.headers[j])
        && d == Difference("row=0,column=" + (if j < |e.headers| then e.headers[j] else a.headers[j]),
                           HeaderText(e.headers, j), HeaderText(a.headers, j), None);
      if j < |e.headers| {
        assert d in HeaderAt(e, a)(j);
      } else {
        assert d in ExtraHeaderAt(e, a)(j - |e.headers|);
      }
    }
  }

  lemma RowsReported(spec: Spec, e: Table, a: Table, d: Difference)
    requires Rectangular(e) && Rectangular(a) && Distinct(a.headers)
    ensures d in Gather(Least(|e.rows|, |a.rows|), RowAt(spec, e, a)) <==> CellReport(spec, e, a, d)
  {
    hide Gather, CellReportAt, RowAt;
    GatherMembers(Least(|e.rows|, |a.rows|), RowAt(spec, e, a), d);
    forall i: nat | i < Least(|e.rows|, |a.rows|) ensures d in RowAt(spec, e, a)(i) <==> RowReport(spec, e, a, i, d) {
      RowReported(spec, e, a, i, d);
    }
    if CellReport(spec, e, a, d) {
      var i: nat, j: nat, k: nat :|
        && i < |e.rows| && i < |a.rows| && j < |e.headers| && j < |e.rows[i]| && k < |a.headers| && k < |a.rows[i]|
        && CellReportAt(spec, e, a, i, j, k, d);
      assert RowReport(spec, e, a, i, d);
    }
  }

  ghost predicate RowReport(spec: Spec, e: Table, a: Table, i: nat, d: Difference)
    requires i < |e.rows| && i < |a.rows|
  {
    exists j: nat, k: nat ::
      && j < |e.headers| && j < |e.rows[i]| && k < |a.headers| && k < |a.rows[i]|
      && CellReportAt(spec, e, a, i, j, k, d)
  }

  lemma RowReported(spec: Spec, e: Table, a: Table, i: nat, d: Difference)
    requires Rectangular(e) && Rectangular(a) && Distinct(a.headers) && i < |e.rows| && i < |a.rows|
    ensures d in RowAt(spec, e, a)(i) <==> RowReport(spec, e, a, i, d)
  {
    hide Gather, CellAt, CellReportAt;
    GatherMembers(|e.headers|, CellAt(spec, e, a, i), d);
    forall j: nat | j < |e.headers|
      ensures d in CellAt(spec, e, a, i)(j) <==>
                exists k: nat | k < |a.headers| :: CellReportAt(spec, e, a, i, j, k, d)
    {
      CellReported(spec, e, a, i, j, d);
    }
    if d in RowAt(spec, e, a)(i) {
      var j: nat :| j < |e.headers| && d in CellAt(spec, e, a, i)(j);
      var k: nat :| k < |a.headers| && CellReportAt(spec, e, a, i, j, k, d);
      assert RowReport(spec, e, a, i, d);
    }
    if RowReport(spec, e, a, i, d) {
      var j: nat, k: nat :|
        && j < |e.headers| && j < |e.rows[i]| && k < |a.headers| && k < |a.rows[i]|
        && CellReportAt(spec, e, a, i, j, k, d);
      assert d in CellAt(spec, e, a, i)(j);
    }
  }

  lemma CellReported(spec: Spec, e: Table, a: Table, i: nat, j: nat, d: Difference)
    requires Rectangular(e) && Rectangular(a) && Distinct(a.headers)
    requires i < |e.rows| && i < |a.rows| && j < |e.headers|
    ensures d in CellAt(spec, e, a, i)(j) <==> exists k: nat | k < |a.headers| :: CellReportAt(spec, e, a, i, j, k, d)
  {
    CellAtIs(spec, e, a, i, j);
    hide CellAt;
    if e.headers[j] in a.headers {
      var column := IndexOf(a.headers, e.headers[j]);
      forall k: nat | k < |a.headers| && a.headers[k] == e.headers[j] ensures k == column {
      }
      assert d in CellDifference(spec, e, a, i, j, column) <==> CellReportAt(spec, e, a, i, j, column, d);
    }
  }

  /** Raising either tolerance never raises the total. */
  lemma LooserNeverMoreCsv(loose: Spec, tight: Spec, e: Table, a: Table)
    requires Loosens(loose, tight) && loose.parseFloat == tight.parseFloat
    ensures |CsvDifferences(loose, e, a)| <= |CsvDifferences(tight, e, a)|
  {
    hide Gather, HeaderAt, ExtraHeaderAt, RowCounts, Loosens;
    forall i: nat ensures |RowAt(loose, e, a)(i)| <= |RowAt(tight, e, a)(i)| {
      forall j: nat ensures |CellAt(loose, e, a, i)(j)| <= |CellAt(tight, e, a, i)(j)| {
        LooserCell(loose, tight, e, a, i, j);
      }
      GatherMonotone(|e.headers|, CellAt(loose, e, a, i), CellAt(tight, e, a, i));
    }
    GatherMonotone(Least(|e.rows|, |a.rows|), RowAt(loose, e, a), RowAt(tight, e, a));
  }

  lemma LooserCell(loose: Spec, tight: Spec, e: Table, a: Table, i: nat, j: nat)
    requires Loosens(loose, tight) && loose.parseFloat == tight.parseFloat
    ensures |CellAt(loose, e, a, i)(j)| <= |CellAt(tight, e, a, i)(j)|
  {
    hide NumericTolerance, Loosens, CellLocation;
    forall x: real ensures NumericTolerance(loose, x) >= NumericTolerance(tight, x) {
      ToleranceGrows(loose, tight, x);
    }
  }
}
