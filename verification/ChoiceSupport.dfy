/** Discrete-choice inputs: the row check, and the support rebuilt from the rows
    (src/envresearch/econometrics/_valuation_csv.py lines 124-154;
    _valuation_support.py lines 121-137; _valuation_evidence.py lines 277-291). */
module ChoiceSupport {
  import opened Options

  datatype Row = Row(respondent: string, choiceSet: string, alternative: string, chosen: string, terms: seq<string>)
  {
    function Group(): (string, string) { (respondent, choiceSet) }

    function Key(): (string, string, string) { (respondent, choiceSet, alternative) }

    predicate WellFormed(parse: string -> Option<real>) {
      && respondent != "" && choiceSet != "" && alternative != ""
      && (chosen == "0" || chosen == "1")
      && forall t | 0 <= t < |terms| :: parse(terms[t]).Some?
    }
  }

  type Groups = map<(string, string), seq<Row>>

  datatype Support = Support(observations: nat, primaryUnits: nat, groups: nat, zeroCount: nat)
  {
    /** The ValuationSupport record's own validators. */
    predicate Valid() {
      && observations > 0 && primaryUnits > 0 && groups > 0
      && primaryUnits <= observations && zeroCount <= observations
    }
  }

  // ---------------------------------------------------------------- rows of a group

  function Where(rows: seq<Row>, keep: Row -> bool): seq<Row> {
    if rows == [] then []
    else Where(rows[..|rows| - 1], keep) + (if keep(rows[|rows| - 1]) then [rows[|rows| - 1]] else [])
  }

  function Count(rows: seq<Row>, keep: Row -> bool): nat {
    |Where(rows, keep)|
  }

  function InGroup(g: (string, string)): Row -> bool {
    (row: Row) => row.Group() == g
  }

  function ChosenIn(g: (string, string)): Row -> bool {
    (row: Row) => row.Group() == g && row.chosen == "1"
  }

  function GroupsOf(rows: seq<Row>): set<(string, string)> {
    set row | row in rows :: row.Group()
  }

  lemma WhereSnoc(rows: seq<Row>, row: Row, keep: Row -> bool)
    ensures Where(rows + [row], keep) == Where(rows, keep) + (if keep(row) then [row] else [])
  {
    assert (rows + [row])[..|rows|] == rows;
  }

  // ----------------------------------------------------------------------- the check

  /** More than one distinct value of a term within the rows. */
  predicate Varies(rows: seq<Row>, t: nat) {
    exists i, j | 0 <= i < j < |rows| ::
      t < |rows[i].terms| && t < |rows[j].terms| && rows[i].terms[t] != rows[j].terms[t]
  }

  predicate DistinctKeys(rows: seq<Row>) {
    forall i, j | 0 <= i < j < |rows| :: rows[i].Key() != rows[j].Key()
  }

  /** Each choice set holds at least two alternatives, exactly one of them chosen. */
  ghost predicate EachSetChooses(rows: seq<Row>) {
    forall g | g in GroupsOf(rows) :: Count(rows, InGroup(g)) >= 2 && Count(rows, ChosenIn(g)) == 1
  }

  ghost predicate TermVaries(rows: seq<Row>, t: nat) {
    exists g | g in GroupsOf(rows) :: Varies(Where(rows, InGroup(g)), t)
  }

  ghost predicate EachTermVaries(rows: seq<Row>, terms: nat) {
    forall t: nat | t < terms :: TermVaries(rows, t)
  }

  ghost predicate Accepts(parse: string -> Option<real>, rows: seq<Row>, terms: nat) {
    && (forall row | row in rows :: row.WellFormed(parse))
    && DistinctKeys(rows) && EachSetChooses(rows) && EachTermVaries(rows, terms)
  }

  ghost predicate Grouped(rows: seq<Row>, sets: Groups) {
    sets.Keys == GroupsOf(rows) && forall g | g in sets :: sets[g] == Where(rows, InGroup(g))
  }

  lemma GroupsSnoc(rows: seq<Row>, row: Row)
    ensures GroupsOf(rows + [row]) == GroupsOf(rows) + {row.Group()}
  {
    assert forall r :: r in rows + [row] <==> r in rows || r == row;
  }

  lemma GroupedNext(rows: seq<Row>, row: Row, sets: Groups)
    requires Grouped(rows, sets)
    ensures var g := row.Group();
            Grouped(rows + [row], sets[g := (if g in sets then sets[g] else []) + [row]])
  {
    hide Where, InGroup, GroupsOf;
    forall h ensures Where(rows + [row], InGroup(h))
      == Where(rows, InGroup(h)) + (if row.Group() == h then [row] else []) {
      WhereGroupSnoc(rows, row, h);
    }
    GroupsSnoc(rows, row);
    if row.Group() !in sets {
      UnseenGroup(rows, row.Group());
    }
  }

  lemma WhereGroupSnoc(rows: seq<Row>, row: Row, h: (string, string))
    ensures Where(rows + [row], InGroup(h)) == Where(rows, InGroup(h)) + (if row.Group() == h then [row] else [])
  {
    WhereSnoc(rows, row, InGroup(h));
  }

  lemma {:induction false} UnseenGroup(rows: seq<Row>, g: (string, string))
    requires g !in GroupsOf(rows)
    ensures Where(rows, InGroup(g)) == []
  {
    if rows != [] {
      assert rows[|rows| - 1] in rows;
      assert g !in GroupsOf(rows[..|rows| - 1]);
      UnseenGroup(rows[..|rows| - 1], g);
    }
  }

  method ReadRow(parse: string -> Option<real>, row: Row) returns (ok: bool)
    ensures ok <==> row.WellFormed(parse)
  {
    if row.respondent == "" || row.choiceSet == "" || row.alternative == "" {
      return false;
    }
    if row.chosen != "0" && row.chosen != "1" {
      return false;
    }
    for t := 0 to |row.terms|
      invariant forall u | 0 <= u < t :: parse(row.terms[u]).Some?
    {
      if parse(row.terms[t]).None? {
        return false;
      }
    }
    return true;
  }

  /** The loop over rows: the choice sets, unless a row is malformed or repeats a key. */
  method GroupRows(parse: string -> Option<real>, rows: seq<Row>) returns (sets: Option<Groups>)
    ensures sets.Some? <==> (forall row | row in rows :: row.WellFormed(parse)) && DistinctKeys(rows)
    ensures sets.Some? ==> Grouped(rows, sets.value)
  {
    hide Grouped, Where, Row.WellFormed, Row.Key;
    var keys: set<(string, string, string)> := {};
    var found: Groups := map[];
    assert Grouped(rows[..0], found) by { GroupedNothing(rows[..0]); }
    for i := 0 to |rows|
      invariant forall row | row in rows[..i] :: row.WellFormed(parse)
      invariant DistinctKeys(rows[..i])
      invariant forall k :: k in keys <==> exists j | 0 <= j < i :: rows[j].Key() == k
      invariant Grouped(rows[..i], found)
    {
      var row := rows[i];
      assert row in rows && rows[..i + 1] == rows[..i] + [row];
      var ok := ReadRow(parse, row);
      if !ok {
        return None;
      }
      if row.Key() in keys {
        ghost var j :| 0 <= j < i && rows[j].Key() == row.Key();
        return None;
      }
      assert DistinctKeys(rows[..i + 1]) by { DistinctSnoc(rows[..i], row); }
      keys := keys + {row.Key()};
      GroupedNext(rows[..i], row, found);
      ghost var before := found;
      if row.Group() !in found {
        found := found[row.Group() := []];
      }
      found := found[row.Group() := found[row.Group()] + [row]];
      assert found == before[row.Group() := (if row.Group() in before then before[row.Group()] else []) + [row]];
    }
    assert rows[..|rows|] == rows;
    return Some(found);
  }

  lemma DistinctSnoc(rows: seq<Row>, row: Row)
    requires DistinctKeys(rows) && forall j | 0 <= j < |rows| :: rows[j].Key() != row.Key()
    ensures DistinctKeys(rows + [row])
  {
  }

  lemma GroupedNothing(rows: seq<Row>)
    requires rows == []
    ensures Grouped(rows, map[])
  {
  }

  function IsChosen(row: Row): bool { row.chosen == "1" }

  lemma {:induction false} ChosenWithin(rows: seq<Row>, g: (string, string))
    ensures Count(Where(rows, InGroup(g)), IsChosen) == Count(rows, ChosenIn(g))
  {
    if rows != [] {
      var init, last := rows[..|rows| - 1], rows[|rows| - 1];
      ChosenWithin(init, g);
      assert rows == init + [last];
      WhereSnoc(init, last, InGroup(g));
      WhereSnoc(init, last, ChosenIn(g));
      if last.Group() == g {
        WhereSnoc(Where(init, InGroup(g)), last, IsChosen);
      } else {
        assert Where(rows, InGroup(g)) == Where(init, InGroup(g));
      }
    }
  }

  /** The loop over choice sets. */
  method CheckSets(ghost rows: seq<Row>, sets: Groups) returns (ok: bool)
    requires Grouped(rows, sets)
    ensures ok <==> EachSetChooses(rows)
  {
    hide Where;
    var rest := sets.Keys;
    while rest != {}
      invariant rest <= sets.Keys
      invariant forall g | g in sets.Keys - rest :: Count(rows, InGroup(g)) >= 2 && Count(rows, ChosenIn(g)) == 1
    {
      var g :| g in rest;
      ChosenWithin(rows, g);
      assert g in GroupsOf(rows) && sets[g] == Where(rows, InGroup(g));
      if |sets[g]| < 2 {
        assert Count(rows, InGroup(g)) < 2;
        return false;
      }
      if Count(sets[g], IsChosen) != 1 {
        return false;
      }
      rest := rest - {g};
    }
    return true;
  }

  /** The loop over terms. */
  method CheckVariation(ghost rows: seq<Row>, sets: Groups, terms: nat) returns (ok: bool)
    requires Grouped(rows, sets)
    ensures ok <==> EachTermVaries(rows, terms)
  {
    hide Where, Varies;
    for t := 0 to terms
      invariant forall u: nat | u < t :: TermVaries(rows, u)
    {
      assert TermVaries(rows, t) <==> exists g | g in sets :: Varies(sets[g], t);
      if !exists g | g in sets :: Varies(sets[g], t) {
        return false;
      }
    }
    return true;
  }

  /** validate_dce. */
  method ValidateChoices(parse: string -> Option<real>, rows: seq<Row>, terms: nat) returns (ok: bool)
    ensures ok <==> Accepts(parse, rows, terms)
  {
    hide Grouped, EachSetChooses, EachTermVaries, DistinctKeys, Row.WellFormed;
    var sets := GroupRows(parse, rows);
    if sets.None? {
      return false;
    }
    ok := CheckSets(rows, sets.value);
    if ok {
      ok := CheckVariation(rows, sets.value, terms);
    }
  }

  // --------------------------------------------------------------- the rebuilt support

  function NotChosen(row: Row): bool { row.chosen == "0" }

  function Respondents(rows: seq<Row>): set<string> {
    set row | row in rows :: row.respondent
  }

  /** The choice branch of reconstruct_support. */
  function ExpectedSupport(rows: seq<Row>): Support {
    Support(|rows|, |Respondents(rows)|, |GroupsOf(rows)|, Count(rows, NotChosen))
  }

  lemma {:induction false} CountIsIndices(rows: seq<Row>, keep: Row -> bool)
    ensures Count(rows, keep) == |set i | 0 <= i < |rows| && keep(rows[i])|
  {
    CountOfFirst(rows, keep, |rows|);
    assert rows[..|rows|] == rows;
  }

  lemma {:induction false} CountOfFirst(rows: seq<Row>, keep: Row -> bool, n: nat)
    requires n <= |rows|
    ensures Count(rows[..n], keep) == |set i | 0 <= i < n && keep(rows[i])|
  {
    var all := set i | 0 <= i < n && keep(rows[i]);
    if n == 0 {
      assert all == {};
    } else {
      CountOfFirst(rows, keep, n - 1);
      var earlier := set i | 0 <= i < n - 1 && keep(rows[i]);
      assert all == earlier + (if keep(rows[n - 1]) then {n - 1} else {});
      assert rows[..n][..n - 1] == rows[..n - 1];
    }
  }

  /** Rows, people, pairs of person and choice set, and rows not chosen. */
  lemma SupportSpelled(rows: seq<Row>)
    ensures var s := ExpectedSupport(rows);
            && s.observations == |rows|
            && s.primaryUnits == |set i | 0 <= i < |rows| :: rows[i].respondent|
            && s.groups == |set i | 0 <= i < |rows| :: (rows[i].respondent, rows[i].choiceSet)|
            && s.zeroCount == |set i: int | 0 <= i < |rows| && rows[i].chosen == "0"|
  {
    var keep: Row -> bool := NotChosen;
    CountIsIndices(rows, keep);
    assert (set i | 0 <= i < |rows| && keep(rows[i])) == set i | 0 <= i < |rows| && rows[i].chosen == "0";
    RespondentsSpelled(rows);
    GroupsSpelled(rows);
  }

  lemma RespondentsSpelled(rows: seq<Row>)
    ensures Respondents(rows) == set i | 0 <= i < |rows| :: rows[i].respondent
  {
    forall row | row in rows ensures exists i | 0 <= i < |rows| :: rows[i].respondent == row.respondent {
      var i :| 0 <= i < |rows| && rows[i] == row;
    }
  }

  lemma GroupsSpelled(rows: seq<Row>)
    ensures GroupsOf(rows) == set i | 0 <= i < |rows| :: (rows[i].respondent, rows[i].choiceSet)
  {
    var pairs := set i | 0 <= i < |rows| :: (rows[i].respondent, rows[i].choiceSet);
    forall row | row in rows ensures row.Group() in pairs {
      var i :| 0 <= i < |rows| && rows[i] == row;
    }
    forall i | 0 <= i < |rows| ensures (rows[i].respondent, rows[i].choiceSet) in GroupsOf(rows) {
      assert rows[i].Group() == (rows[i].respondent, rows[i].choiceSet) && rows[i] in rows;
    }
    assert GroupsOf(rows) == pairs;
  }

  // ---------------------------------------------------------------- counting by group

  function InAny(groups: set<(string, string)>): Row -> bool {
    (row: Row) => row.Group() in groups
  }

  function ChosenInAny(groups: set<(string, string)>): Row -> bool {
    (row: Row) => row.Group() in groups && row.chosen == "1"
  }

  lemma {:induction false} CountSplits(rows: seq<Row>, f: Row -> bool, g: Row -> bool, h: Row -> bool)
    requires forall row | row in rows :: f(row) == (g(row) || h(row)) && !(g(row) && h(row))
    ensures Count(rows, f) == Count(rows, g) + Count(rows, h)
  {
    if rows != [] {
      assert rows[|rows| - 1] in rows;
      CountSplits(rows[..|rows| - 1], f, g, h);
    }
  }

  lemma {:induction false} CountAll(rows: seq<Row>, f: Row -> bool)
    requires forall row | row in rows :: f(row)
    ensures Count(rows, f) == |rows|
  {
    if rows != [] {
      assert rows[|rows| - 1] in rows;
      CountAll(rows[..|rows| - 1], f);
    }
  }

  lemma {:induction false} CountNone(rows: seq<Row>, f: Row -> bool)
    requires forall row | row in rows :: !f(row)
    ensures Count(rows, f) == 0
  {
    if rows != [] {
      assert rows[|rows| - 1] in rows;
      CountNone(rows[..|rows| - 1], f);
    }
  }

  /** Over any of the groups: one chosen row for each, and at least twice as many rows. */
  lemma {:induction false} CountByGroup(rows: seq<Row>, groups: set<(string, string)>)
    requires EachSetChooses(rows) && groups <= GroupsOf(rows)
    ensures Count(rows, ChosenInAny(groups)) == |groups| && Count(rows, InAny(groups)) >= 2 * |groups|
    decreases |groups|
  {
    hide Count;
    if groups == {} {
      CountNone(rows, ChosenInAny(groups));
    } else {
      var g :| g in groups;
      var rest := groups - {g};
      CountByGroup(rows, rest);
      CountSplits(rows, ChosenInAny(groups), ChosenInAny(rest), ChosenIn(g));
      CountSplits(rows, InAny(groups), InAny(rest), InGroup(g));
    }
  }

  lemma {:induction false} FewerRespondents(groups: set<(string, string)>)
    ensures |set g | g in groups :: g.0| <= |groups|
    decreases |groups|
  {
    if groups != {} {
      var g :| g in groups;
      FewerRespondents(groups - {g});
      var all, rest := set h | h in groups :: h.0, set h | h in groups - {g} :: h.0;
      assert all == rest + {g.0};
    }
  }

  /** In every accepted dataset the rows not chosen and the choice sets add up to the
      observations, each set has at least two of them, and no respondent has less than
      one set. */
  lemma AcceptedChoicesReconcile(parse: string -> Option<real>, rows: seq<Row>, terms: nat)
    requires Accepts(parse, rows, terms)
    ensures var s := ExpectedSupport(rows);
            && s.zeroCount + s.groups == s.observations
            && 2 * s.groups <= s.observations
            && s.primaryUnits <= s.groups
  {
    hide Count, EachSetChooses, EachTermVaries, DistinctKeys;
    var groups := GroupsOf(rows);
    CountByGroup(rows, groups);
    CountAll(rows, InAny(groups));
    CountSplits(rows, InAny(groups), ChosenInAny(groups), NotChosen) by {
      forall row | row in rows
        ensures InAny(groups)(row) == (ChosenInAny(groups)(row) || NotChosen(row)) &&
                !(ChosenInAny(groups)(row) && NotChosen(row))
      {
        assert row.WellFormed(parse);
      }
    }
    FewerRespondents(groups);
    assert Respondents(rows) == set g | g in groups :: g.0;
  }

  /** With at least one term to vary, the rebuilt support is a valid record. */
  lemma AcceptedSupportIsValid(parse: string -> Option<real>, rows: seq<Row>, terms: nat)
    requires Accepts(parse, rows, terms) && terms > 0
    ensures ExpectedSupport(rows).Valid()
  {
    AcceptedChoicesReconcile(parse, rows, terms);
    hide Where, Row.WellFormed, DistinctKeys, EachSetChooses, Varies;
    assert TermVaries(rows, 0);
    var g :| g in GroupsOf(rows) && Varies(Where(rows, InGroup(g)), 0);
    var row :| row in rows && row.Group() == g;
    assert row.respondent in Respondents(rows);
  }
}
