/** The closed set of R packages a frozen library selects
    (src/envresearch/econometrics/frozen_r_library.py lines 84-146, 205-246). */
module FrozenLibrary {
  import opened Options
  import opened Ordering
  import opened Text
  import opened DependencyEntries

  const BASE_R_PACKAGES: set<string> := {
    "R", "base", "compiler", "datasets", "graphics", "grDevices", "grid", "methods",
    "parallel", "splines", "stats", "stats4", "tcltk", "tools", "utils"
  }

  /** The source's second test adds nothing. */
  predicate IsBase(name: string): (r: bool)
    ensures r <==> name in BASE_R_PACKAGES
  {
    name in BASE_R_PACKAGES || name == "R"
  }

  type Fields = map<string, string>

  /** One installed package directory; a missing DESCRIPTION or an empty tree is None. */
  datatype Tree = Tree(description: Option<Fields>, digest: Option<string>)

  /** The source libraries, in order. */
  datatype Sources = Sources(roots: seq<map<string, Tree>>)

  datatype Fault = Missing | Unreadable | Ambiguous | Incomplete | Conflicting | InvalidSyntax

  function FieldOf(fields: Fields, key: string): string {
    if key in fields then fields[key] else ""
  }

  // ------------------------------------------------------------------ dependencies

  function ReadEntries(items: seq<string>): Option<seq<string>> {
    if items == [] then Some([])
    else
      var rest := ReadEntries(items[..|items| - 1]);
      match ReadEntry(items[|items| - 1])
      case Malformed => None
      case Blank => rest
      case Package(name) => if rest.None? then None else Some(rest.value + [name])
  }

  function FieldEntries(fields: Fields): seq<string> {
    Split(FieldOf(fields, "Depends"), ',') + Split(FieldOf(fields, "Imports"), ',')
      + Split(FieldOf(fields, "LinkingTo"), ',')
  }

  /** _dependency_names: None when some entry is malformed. */
  function DependencyNames(fields: Fields): Option<seq<string>> {
    ReadEntries(FieldEntries(fields))
  }

  /** The item is one of the comma-separated items of one of the three dependency fields. */
  ghost predicate IsItem(fields: Fields, item: string) {
    exists key :: key in {"Depends", "Imports", "LinkingTo"} && item in Split(FieldOf(fields, key), ',')
  }

  /** Some item of the DESCRIPTION asks for the package, whatever version it asks for. */
  ghost predicate NamesDependency(fields: Fields, name: string) {
    exists item :: IsItem(fields, item) && AsksFor(item, name)
  }

  /** Some item is neither blank nor asks for any package. */
  ghost predicate HasMalformedItem(fields: Fields) {
    exists item :: IsItem(fields, item) && !IsBlank(item) && forall name :: !AsksFor(item, name)
  }

  lemma {:induction false} ReadEntriesExactly(items: seq<string>)
    ensures ReadEntries(items).None? <==> exists item | item in items :: ReadEntry(item).Malformed?
    ensures ReadEntries(items).Some? ==>
              forall name :: name in ReadEntries(items).value <==>
                exists item | item in items :: ReadEntry(item) == Package(name)
  {
    hide ReadEntry;
    if items != [] {
      var init, last := items[..|items| - 1], items[|items| - 1];
      ReadEntriesExactly(init);
      assert forall item :: item in items <==> item in init || item == last;
    }
  }

  lemma ItemsExactly(fields: Fields, item: string)
    ensures item in FieldEntries(fields) <==> IsItem(fields, item)
  {
    hide Split;
    if item in FieldEntries(fields) {
      assert item in Split(FieldOf(fields, "Depends"), ',') || item in Split(FieldOf(fields, "Imports"), ',')
             || item in Split(FieldOf(fields, "LinkingTo"), ',');
      assert "Depends" in {"Depends", "Imports", "LinkingTo"} && "Imports" in {"Depends", "Imports", "LinkingTo"};
    }
  }

  /** The names are exactly those the three fields ask for, unless an item is malformed. */
  lemma DependencyNamesExactly(fields: Fields)
    ensures DependencyNames(fields).None? <==> HasMalformedItem(fields)
    ensures DependencyNames(fields).Some? ==>
              forall name :: name in DependencyNames(fields).value <==> NamesDependency(fields, name)
  {
    hide ReadEntries, ReadEntry, FieldEntries, AsksFor, IsBlank;
    var items := FieldEntries(fields);
    ReadEntriesExactly(items);
    forall item ensures item in items <==> IsItem(fields, item) {
      ItemsExactly(fields, item);
    }
    hide IsItem;
    forall item
      ensures ReadEntry(item).Malformed? <==> !IsBlank(item) && forall name :: !AsksFor(item, name)
      ensures forall name :: ReadEntry(item) == Package(name) <==> AsksFor(item, name)
    {
      ReadEntryExactly(item);
    }
  }

  // ------------------------------------------------------------------- one package

  /** (root / name for root in roots if it is a directory). */
  function Candidates(roots: seq<map<string, Tree>>, name: string): (r: seq<Tree>)
    ensures r == [] <==> forall i | 0 <= i < |roots| :: name !in roots[i]
  {
    if roots == [] then []
    else
      assert roots == [roots[0]] + roots[1..];
      (if name in roots[0] then [roots[0][name]] else []) + Candidates(roots[1..], name)
  }

  predicate Readable(t: Tree) {
    t.description.Some? && t.digest.Some?
  }

  /** Its (version, digest) pair, when both can be read. */
  function Identity(t: Tree): Option<(Option<string>, string)> {
    if t.description.None? || t.digest.None? then None
    else
      var fields := t.description.value;
      Some((if "Version" in fields then Some(fields["Version"]) else None, t.digest.value))
  }

  /** What reading a package by name yields: its tree, or the first fault raised. */
  datatype Found = Selected(tree: Tree, dependencies: seq<string>) | Faulty(fault: Fault)

  function Inspect(s: Sources, name: string): (r: Found)
    ensures r.Selected? ==>
              Candidates(s.roots, name) != [] && r.tree == Candidates(s.roots, name)[0] && r.tree.description.Some?
    ensures r.Selected? ==> DependencyNames(r.tree.description.value) == Some(r.dependencies)
  {
    var candidates := Candidates(s.roots, name);
    if candidates == [] then Faulty(Missing)
    else if exists t | t in candidates :: !Readable(t) then Faulty(Unreadable)
    else if |set t | t in candidates :: Identity(t)| != 1 then Faulty(Ambiguous)
    else
      assert candidates[0] in candidates;
      var metadata := candidates[0].description.value;
      if FieldOf(metadata, "Package") == "" || FieldOf(metadata, "Version") == "" ||
        FieldOf(metadata, "License") == "" then Faulty(Incomplete)
      else if metadata["Package"] != name then Faulty(Conflicting)
      else
        var names := DependencyNames(metadata);
        if names.None? then Faulty(InvalidSyntax) else Selected(candidates[0], names.value)
  }

  // -------------------------------------------------------- when one can be selected

  /** The first library that has the package. */
  ghost predicate FirstWith(roots: seq<map<string, Tree>>, name: string, i: nat) {
    i < |roots| && name in roots[i] && forall j | 0 <= j < i :: name !in roots[j]
  }

  ghost predicate AllReadable(s: Sources, name: string) {
    forall j | 0 <= j < |s.roots| && name in s.roots[j] :: Readable(s.roots[j][name])
  }

  /** Every library that has the package has the same version and contents. */
  ghost predicate AllAgree(s: Sources, name: string) {
    forall i, j | 0 <= i < |s.roots| && 0 <= j < |s.roots| && name in s.roots[i] && name in s.roots[j] ::
      Identity(s.roots[i][name]) == Identity(s.roots[j][name])
  }

  predicate Complete(fields: Fields) {
    forall key | key in {"Package", "Version", "License"} :: key in fields && fields[key] != ""
  }

  /** The package is taken from the first library that has it, provided that all copies
      are readable and agree, that its DESCRIPTION is complete and its own, and that
      every dependency item reads. */
  ghost predicate Selectable(s: Sources, name: string, t: Tree) {
    && (exists i: nat :: FirstWith(s.roots, name, i) && s.roots[i][name] == t)
    && AllReadable(s, name) && AllAgree(s, name)
    && t.description.Some? && Complete(t.description.value) && t.description.value["Package"] == name
    && !HasMalformedItem(t.description.value)
  }

  lemma {:induction false} CandidatesExactly(roots: seq<map<string, Tree>>, name: string)
    ensures forall t :: t in Candidates(roots, name) <==>
              exists j | 0 <= j < |roots| && name in roots[j] :: roots[j][name] == t
    ensures Candidates(roots, name) != [] ==>
              exists i: nat :: FirstWith(roots, name, i) && roots[i][name] == Candidates(roots, name)[0]
  {
    if roots != [] {
      var head, rest := roots[0], roots[1..];
      CandidatesExactly(rest, name);
      assert roots == [head] + rest;
      if name in head {
        assert FirstWith(roots, name, 0);
      } else if Candidates(rest, name) != [] {
        var i: nat :| FirstWith(rest, name, i) && rest[i][name] == Candidates(rest, name)[0];
        assert FirstWith(roots, name, i + 1);
      }
      forall t ensures t in Candidates(roots, name) <==>
        exists j | 0 <= j < |roots| && name in roots[j] :: roots[j][name] == t
      {
        CandidatesStep(head, rest, name, t);
      }
    }
  }

  lemma CandidatesStep(head: map<string, Tree>, rest: seq<map<string, Tree>>, name: string, t: Tree)
    requires t in Candidates(rest, name) <==> exists j | 0 <= j < |rest| && name in rest[j] :: rest[j][name] == t
    ensures var roots := [head] + rest;
            t in Candidates(roots, name) <==> exists j | 0 <= j < |roots| && name in roots[j] :: roots[j][name] == t
  {
    var roots := [head] + rest;
    assert roots[1..] == rest && roots[0] == head;
    assert forall j | 0 <= j < |rest| :: roots[j + 1] == rest[j];
  }

  lemma FirstUnique(roots: seq<map<string, Tree>>, name: string, i: nat, j: nat)
    requires FirstWith(roots, name, i) && FirstWith(roots, name, j)
    ensures i == j
  {
  }

  lemma OneIdentity(s: Sources, name: string, candidates: seq<Tree>)
    requires candidates == Candidates(s.roots, name) && candidates != []
    ensures |set t | t in candidates :: Identity(t)| == 1 <==> AllAgree(s, name)
  {
    CandidatesExactly(s.roots, name);
    var identities := set t | t in candidates :: Identity(t);
    var first := Identity(candidates[0]);
    assert first in identities;
    if |identities| == 1 {
      assert identities == {first} by { SingletonIs(identities, first); }
      forall i, j | 0 <= i < |s.roots| && 0 <= j < |s.roots| && name in s.roots[i] && name in s.roots[j]
        ensures Identity(s.roots[i][name]) == Identity(s.roots[j][name])
      {
        assert s.roots[i][name] in candidates && s.roots[j][name] in candidates;
        assert Identity(s.roots[i][name]) in identities && Identity(s.roots[j][name]) in identities;
      }
    }
    if AllAgree(s, name) {
      assert candidates[0] in candidates;
      forall t | t in candidates ensures Identity(t) == first {
      }
      assert identities == {first};
    }
  }

  lemma SingletonIs<T>(s: set<T>, x: T)
    requires |s| == 1 && x in s
    ensures s == {x}
  {
    assert |s - {x}| == 0;
  }

  /** Reading a package selects exactly the tree that can be selected. */
  lemma InspectExactly(s: Sources, name: string)
    ensures forall t :: Selectable(s, name, t) <==> Inspect(s, name).Selected? && Inspect(s, name).tree == t
  {
    hide DependencyNames, HasMalformedItem, Identity, Candidates;
    var candidates := Candidates(s.roots, name);
    CandidatesExactly(s.roots, name);
    assert forall j | 0 <= j < |s.roots| && name in s.roots[j] :: s.roots[j][name] in candidates;
    if candidates != [] {
      OneIdentity(s, name, candidates);
      var t := candidates[0];
      assert t in candidates;
      ReadableExactly(s, name, candidates);
      var i: nat :| FirstWith(s.roots, name, i) && s.roots[i][name] == t;
      forall j: nat | FirstWith(s.roots, name, j) ensures j == i {
        FirstUnique(s.roots, name, i, j);
      }
      if t.description.Some? {
        DependencyNamesExactly(t.description.value);
      }
    }
  }

  lemma ReadableExactly(s: Sources, name: string, candidates: seq<Tree>)
    requires candidates == Candidates(s.roots, name)
    ensures AllReadable(s, name) <==> forall t | t in candidates :: Readable(t)
  {
    CandidatesExactly(s.roots, name);
    if forall t | t in candidates :: Readable(t) {
      forall j | 0 <= j < |s.roots| && name in s.roots[j] ensures Readable(s.roots[j][name]) {
        assert s.roots[j][name] in candidates;
      }
    }
  }

  /** The DESCRIPTION of the copy that would be taken. */
  ghost predicate Describes(s: Sources, name: string, fields: Fields) {
    AllReadable(s, name) && AllAgree(s, name) &&
    exists i: nat :: FirstWith(s.roots, name, i) && s.roots[i][name].description == Some(fields)
  }

  /** What each failure says of the libraries. */
  lemma FaultMeans(s: Sources, name: string)
    requires Inspect(s, name).Faulty?
    ensures match Inspect(s, name).fault
            case Missing => forall j | 0 <= j < |s.roots| :: name !in s.roots[j]
            case Unreadable => !AllReadable(s, name)
            case Ambiguous => AllReadable(s, name) && !AllAgree(s, name)
            case Incomplete => exists fields :: Describes(s, name, fields) && !Complete(fields)
            case Conflicting => exists fields :: Describes(s, name, fields) && FieldOf(fields, "Package") != name
            case InvalidSyntax => exists fields :: Describes(s, name, fields) && HasMalformedItem(fields)
  {
    hide DependencyNames, HasMalformedItem, Identity, Candidates;
    var candidates := Candidates(s.roots, name);
    CandidatesExactly(s.roots, name);
    ReadableExactly(s, name, candidates);
    if candidates != [] {
      OneIdentity(s, name, candidates);
      var t := candidates[0];
      assert t in candidates;
      var i: nat :| FirstWith(s.roots, name, i) && s.roots[i][name] == t;
      if t.description.Some? {
        DependencyNamesExactly(t.description.value);
        assert AllReadable(s, name) && AllAgree(s, name) ==> Describes(s, name, t.description.value);
      }
    }
  }

  // ------------------------------------------------------------------ reachability

  /** What a package asks for; nothing when it cannot be read. */
  function Dependencies(s: Sources, name: string): seq<string> {
    match Inspect(s, name)
    case Selected(_, names) => names
    case Faulty(_) => []
  }

  /** A package outside base R that can be selected asks for another in its DESCRIPTION. */
  ghost predicate Asks(s: Sources, name: string, dependency: string) {
    !IsBase(name) && exists t :: Selectable(s, name, t) && NamesDependency(t.description.value, dependency)
  }

  /** What a package asks for is what its selected tree's DESCRIPTION names. */
  lemma DependenciesExactly(s: Sources, name: string, dependency: string)
    ensures dependency in Dependencies(s, name) <==>
              exists t :: Selectable(s, name, t) && NamesDependency(t.description.value, dependency)
  {
    hide Selectable, NamesDependency, Inspect, DependencyNames;
    InspectExactly(s, name);
    if Inspect(s, name).Selected? {
      DependencyNamesExactly(Inspect(s, name).tree.description.value);
    }
  }


  /** A chain of dependencies from a required package, through packages outside base R. */
  ghost predicate Chain(s: Sources, required: seq<string>, p: seq<string>) {
    && p != [] && p[0] in required
    && forall i | 0 <= i < |p| - 1 :: Asks(s, p[i], p[i + 1])
  }

  /** A package outside base R that the required ones lead to. */
  ghost predicate Needed(s: Sources, required: seq<string>, name: string) {
    !IsBase(name) && Led(s, required, name)
  }

  ghost predicate Led(s: Sources, required: seq<string>, name: string) {
    exists p :: Chain(s, required, p) && p[|p| - 1] == name
  }

  lemma LedStart(s: Sources, required: seq<string>, name: string)
    requires name in required
    ensures Led(s, required, name)
  {
    assert Chain(s, required, [name]);
  }

  lemma LedStep(s: Sources, required: seq<string>, name: string, dependency: string)
    requires Needed(s, required, name) && dependency in Dependencies(s, name)
    ensures Led(s, required, dependency)
  {
    hide Dependencies, IsBase, Selectable, NamesDependency;
    DependenciesExactly(s, name, dependency);
    var p :| Chain(s, required, p) && p[|p| - 1] == name;
    var q := p + [dependency];
    forall i | 0 <= i < |q| - 1 ensures Asks(s, q[i], q[i + 1]) {
      if i < |p| - 1 {
        assert Asks(s, p[i], p[i + 1]);
      }
    }
    assert Chain(s, required, q) && q[|q| - 1] == dependency;
  }

  /** A set that holds the required packages and its own dependencies holds them all. */
  lemma {:induction false} ClosedHoldsChain(s: Sources, required: seq<string>, p: seq<string>, closed: set<string>)
    requires Chain(s, required, p) && !IsBase(p[|p| - 1])
    requires forall n | n in required :: IsBase(n) || n in closed
    requires forall n, d | n in closed && d in Dependencies(s, n) :: IsBase(d) || d in closed
    ensures p[|p| - 1] in closed
    decreases |p|
  {
    hide Dependencies, IsBase, Selectable, NamesDependency;
    if |p| > 1 {
      var q := p[..|p| - 1];
      assert Asks(s, p[|p| - 2], p[|p| - 1]);
      DependenciesExactly(s, p[|p| - 2], p[|p| - 1]);
      forall i | 0 <= i < |q| - 1 ensures Asks(s, q[i], q[i + 1]) {
        assert Asks(s, p[i], p[i + 1]);
      }
      ClosedHoldsChain(s, required, q, closed);
    }
  }

  // ------------------------------------------------------------------ the worklist

  datatype Closure =
    | Closed(selected: map<string, Tree>, fields: map<string, Fields>)
    | Rejected(fault: Fault, name: string)

  function Installed(roots: seq<map<string, Tree>>): set<string> {
    if roots == [] then {} else roots[0].Keys + Installed(roots[1..])
  }

  lemma {:induction false} CandidateInstalled(roots: seq<map<string, Tree>>, name: string)
    requires Candidates(roots, name) != []
    ensures name in Installed(roots)
  {
    if name !in roots[0] {
      CandidateInstalled(roots[1..], name);
    }
  }

  /** Every name still pending or already selected is one the required ones lead to. */
  ghost predicate Justified(s: Sources, required: seq<string>, pending: seq<string>, selected: map<string, Tree>) {
    && (forall n | n in pending :: Led(s, required, n))
    && (forall n | n in selected ::
      Needed(s, required, n) && Inspect(s, n).Selected? && selected[n] == Inspect(s, n).tree)
  }

  /** Whatever is required, or asked for by a selected package, is base R, selected or pending. */
  ghost predicate Covered(s: Sources, required: seq<string>, pending: seq<string>, selected: map<string, Tree>) {
    && (forall n | n in required :: IsBase(n) || n in selected || n in pending)
    && (forall n, d | n in selected && d in Dependencies(s, n) :: IsBase(d) || d in selected || d in pending)
  }

  lemma CountGrows(installed: set<string>, selected: map<string, Tree>, name: string, tree: Tree)
    requires name in installed && name !in selected
    ensures |installed - selected[name := tree].Keys| < |installed - selected.Keys|
  {
    assert installed - selected[name := tree].Keys == (installed - selected.Keys) - {name};
  }

  lemma PopCovered(s: Sources, required: seq<string>, pending: seq<string>, selected: map<string, Tree>)
    requires pending != [] && Covered(s, required, pending, selected)
    requires IsBase(pending[|pending| - 1]) || pending[|pending| - 1] in selected
    ensures Covered(s, required, pending[..|pending| - 1], selected)
  {
    hide Dependencies, IsBase;
    assert pending == pending[..|pending| - 1] + [pending[|pending| - 1]];
  }

  lemma SelectCovered(s: Sources, required: seq<string>, pending: seq<string>, selected: map<string, Tree>, tree: Tree)
    requires pending != [] && Covered(s, required, pending, selected)
    ensures var name := pending[|pending| - 1];
            Covered(s, required, pending[..|pending| - 1] + Dependencies(s, name), selected[name := tree])
  {
    hide Dependencies, IsBase;
    assert pending == pending[..|pending| - 1] + [pending[|pending| - 1]];
  }

  lemma SelectJustified(s: Sources, required: seq<string>, pending: seq<string>, selected: map<string, Tree>)
    requires pending != [] && Justified(s, required, pending, selected)
    requires !IsBase(pending[|pending| - 1]) && Inspect(s, pending[|pending| - 1]).Selected?
    ensures var name := pending[|pending| - 1];
            Justified(s, required, pending[..|pending| - 1] + Dependencies(s, name),
                      selected[name := Inspect(s, name).tree])
  {
    var name := pending[|pending| - 1];
    var init, deps := pending[..|pending| - 1], Dependencies(s, name);
    assert Needed(s, required, name);
    assert forall n | n in init :: Led(s, required, n);
    hide Dependencies, IsBase, Inspect, Led, Needed, Justified;
    forall d | d in deps ensures Led(s, required, d) {
      LedStep(s, required, name, d);
    }
    forall n | n in init + deps ensures Led(s, required, n) {
      assert n in init || n in deps;
    }
    JustifiedMore(s, required, pending, init + deps, selected, name);
  }

  lemma JustifiedMore(s: Sources, required: seq<string>, pending: seq<string>, next: seq<string>,
                      selected: map<string, Tree>, name: string)
    requires Justified(s, required, pending, selected) && forall n | n in next :: Led(s, required, n)
    requires Needed(s, required, name) && Inspect(s, name).Selected?
    ensures Justified(s, required, next, selected[name := Inspect(s, name).tree])
  {
    hide Inspect, Led, Needed, Candidates, DependencyNames;
  }

  /** _closed_packages: it ends on every input, with exactly the packages needed, or
      with the fault of one that is needed and cannot be selected. */
  method ClosedPackages(s: Sources, required: seq<string>) returns (r: Closure)
    ensures r.Closed? <==> forall n | Needed(s, required, n) :: Inspect(s, n).Selected?
    ensures r.Closed? ==> r.selected.Keys == r.fields.Keys && forall n :: n in r.selected <==> Needed(s, required, n)
    ensures r.Closed? ==> forall n | n in r.selected ::
              Inspect(s, n).Selected? && r.selected[n] == Inspect(s, n).tree &&
                Some(r.fields[n]) == Inspect(s, n).tree.description
    ensures r.Rejected? ==> Needed(s, required, r.name) && Inspect(s, r.name) == Faulty(r.fault)
  {
    hide *;
    var selected: map<string, Tree> := map[];
    var fields: map<string, Fields> := map[];
    var pending := required;
    ghost var installed := Installed(s.roots);
    StartHolds(s, required);
    while pending != []
      invariant Justified(s, required, pending, selected) && Covered(s, required, pending, selected)
      invariant selected.Keys == fields.Keys
      invariant forall n | n in selected :: Some(fields[n]) == selected[n].description
      decreases |installed - selected.Keys|, |pending|
    {
      var name := pending[|pending| - 1];
      JustifiedPending(s, required, pending, selected);
      if IsBase(name) || name in selected {
        PopCovered(s, required, pending, selected);
        PopJustified(s, required, pending, selected);
        pending := pending[..|pending| - 1];
        continue;
      }
      var found := Inspect(s, name);
      if found.Faulty? {
        NeededIs(s, required, name);
        return Rejected(found.fault, name);
      }
      SelectStep(s, required, pending, selected);
      selected := selected[name := found.tree];
      fields := fields[name := found.tree.description.value];
      pending := pending[..|pending| - 1] + found.dependencies;
    }
    FinishedIsExact(s, required, selected);
    return Closed(selected, fields);
  }

  /** Selecting the last pending name keeps the invariants and uses up a package. */
  lemma SelectStep(s: Sources, required: seq<string>, pending: seq<string>, selected: map<string, Tree>)
    requires pending != [] && Justified(s, required, pending, selected) && Covered(s, required, pending, selected)
    requires !IsBase(pending[|pending| - 1]) && pending[|pending| - 1] !in selected
    requires Inspect(s, pending[|pending| - 1]).Selected?
    ensures var name := pending[|pending| - 1];
            var found := Inspect(s, name);
            var next := selected[name := found.tree];
            && found.tree.description.Some?
            && Justified(s, required, pending[..|pending| - 1] + found.dependencies, next)
            && Covered(s, required, pending[..|pending| - 1] + found.dependencies, next)
            && |Installed(s.roots) - next.Keys| < |Installed(s.roots) - selected.Keys|
  {
    hide *;
    var name := pending[|pending| - 1];
    var found := Inspect(s, name);
    SelectedIsCandidate(s, name);
    CandidateInstalled(s.roots, name);
    CountGrows(Installed(s.roots), selected, name, found.tree);
    SelectCovered(s, required, pending, selected, found.tree);
    SelectJustified(s, required, pending, selected);
    DependenciesAre(s, name);
  }

  lemma StartHolds(s: Sources, required: seq<string>)
    ensures Justified(s, required, required, map[]) && Covered(s, required, required, map[])
  {
    hide Led;
    forall n | n in required ensures Led(s, required, n) {
      LedStart(s, required, n);
    }
  }

  lemma JustifiedPending(s: Sources, required: seq<string>, pending: seq<string>, selected: map<string, Tree>)
    requires Justified(s, required, pending, selected) && pending != []
    ensures Led(s, required, pending[|pending| - 1])
  {
  }

  lemma PopJustified(s: Sources, required: seq<string>, pending: seq<string>, selected: map<string, Tree>)
    requires Justified(s, required, pending, selected) && pending != []
    ensures Justified(s, required, pending[..|pending| - 1], selected)
  {
    hide Led, Inspect;
  }

  lemma NeededIs(s: Sources, required: seq<string>, name: string)
    requires Led(s, required, name) && !IsBase(name)
    ensures Needed(s, required, name)
  {
  }

  lemma SelectedIsCandidate(s: Sources, name: string)
    requires Inspect(s, name).Selected?
    ensures Candidates(s.roots, name) != [] && Inspect(s, name).tree.description.Some?
  {
  }

  lemma DependenciesAre(s: Sources, name: string)
    requires Inspect(s, name).Selected?
    ensures Dependencies(s, name) == Inspect(s, name).dependencies
  {
  }

  lemma FinishedIsExact(s: Sources, required: seq<string>, selected: map<string, Tree>)
    requires Justified(s, required, [], selected) && Covered(s, required, [], selected)
    ensures forall n :: n in selected <==> Needed(s, required, n)
    ensures forall n | n in selected :: Inspect(s, n).Selected? && selected[n] == Inspect(s, n).tree
  {
    hide Covered, Inspect, Needed;
    forall n | Needed(s, required, n) ensures n in selected {
      CoveredHolds(s, required, selected, n);
    }
  }

  lemma CoveredHolds(s: Sources, required: seq<string>, selected: map<string, Tree>, name: string)
    requires Covered(s, required, [], selected) && Needed(s, required, name)
    ensures name in selected
  {
    hide Dependencies, IsBase, Needed;
    ClosedHoldsNeeded(s, required, name, selected.Keys);
  }

  lemma ClosedHoldsNeeded(s: Sources, required: seq<string>, name: string, closed: set<string>)
    requires Needed(s, required, name)
    requires forall n | n in required :: IsBase(n) || n in closed
    requires forall n, d | n in closed && d in Dependencies(s, n) :: IsBase(d) || d in closed
    ensures name in closed
  {
    hide Dependencies, IsBase, Asks;
    var p :| Chain(s, required, p) && p[|p| - 1] == name;
    ClosedHoldsChain(s, required, p, closed);
  }

  // ----------------------------------------------------------------- closure check

  /** The dependency loop of verify: it raises on a dependency outside base R that is
      not among the frozen packages. */
  method CheckClosure(s: Sources, expected: seq<string>) returns (ok: bool)
    ensures ok <==> forall n, d | n in expected && d in Dependencies(s, n) :: IsBase(d) || d in expected
  {
    hide Dependencies, IsBase;
    for i := 0 to |expected|
      invariant forall n, d | n in expected[..i] && d in Dependencies(s, n) :: IsBase(d) || d in expected
    {
      var names := Dependencies(s, expected[i]);
      for j := 0 to |names|
        invariant forall d | d in names[..j] :: IsBase(d) || d in expected
      {
        if !IsBase(names[j]) && names[j] !in expected {
          assert expected[i] in expected && names[j] in Dependencies(s, expected[i]);
          return false;
        }
      }
      assert names[..|names|] == names;
      assert expected[..i + 1] == expected[..i] + [expected[i]];
    }
    assert expected[..|expected|] == expected;
    return true;
  }

  /** The closure check cannot fail on the packages the worklist selects. */
  lemma SelectionIsClosed(s: Sources, required: seq<string>, expected: seq<string>)
    requires forall n :: n in expected <==> Needed(s, required, n)
    ensures forall n, d | n in expected && d in Dependencies(s, n) :: IsBase(d) || d in expected
  {
    hide Dependencies, IsBase, Led;
    forall n, d | n in expected && d in Dependencies(s, n) ensures IsBase(d) || d in expected {
      LedStep(s, required, n, d);
    }
  }

  /** Selecting and then verifying: a successful selection always passes the check. */
  method SelectAndCheck(s: Sources, required: seq<string>) returns (r: Closure, ok: bool)
    ensures r.Closed? ==> ok
  {
    hide *;
    r := ClosedPackages(s, required);
    if r.Rejected? {
      return r, false;
    }
    var expected := SortedKeys(r.selected.Keys);
    SelectionIsClosed(s, required, expected);
    ok := CheckClosure(s, expected);
  }
}
