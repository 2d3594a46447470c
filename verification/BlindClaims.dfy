/** The claim-integrity validator for blind method recommendations
    (src/envresearch/benchmarks/blind_claim_semantics.py lines 30-142, 167-222). */
module BlindClaims {
  import opened Options
  import opened Ordering
  import opened Sequences
  import opened Text
  import opened JsonPointers
  import opened ClaimIntegrity

  const FACT_REFS := "fact_refs"
  const FACT_REFS_PATH := "/fact_refs"

  // ------------------------------------------------------------------ fact_refs

  predicate HoldsFactRefs(payload: Json) {
    && payload.JObject?
    && FACT_REFS in payload.fields
    && payload.fields[FACT_REFS].JArray?
    && forall i | 0 <= i < |payload.fields[FACT_REFS].items| :: payload.fields[FACT_REFS].items[i].JString?
  }

  /** The fact ids, when fact_refs is an array of strings. */
  function FactRefs(payload: Json): Option<seq<string>> {
    if HoldsFactRefs(payload) then
      var items := payload.fields[FACT_REFS].items;
      Some(seq(|items|, i requires 0 <= i < |items| => items[i].s))
    else None
  }

  function FactPointer(i: nat): string {
    "/fact_refs/" + Decimal(i)
  }

  /** The dictionary from each fact pointer to its value. */
  function Facts(refs: seq<string>): map<string, string> {
    if refs == [] then map[]
    else Facts(refs[..|refs| - 1])[FactPointer(|refs| - 1) := refs[|refs| - 1]]
  }

  lemma FactPointerInjective(i: nat, j: nat)
    requires FactPointer(i) == FactPointer(j)
    ensures i == j
  {
    assert FactPointer(i)[|"/fact_refs/"|..] == Decimal(i);
    assert FactPointer(j)[|"/fact_refs/"|..] == Decimal(j);
    DecimalRoundTrip(i);
    DecimalRoundTrip(j);
  }

  lemma {:induction false} FactsExact(refs: seq<string>)
    ensures forall i | 0 <= i < |refs| :: FactPointer(i) in Facts(refs) && Facts(refs)[FactPointer(i)] == refs[i]
    ensures forall p | p in Facts(refs) :: exists i | 0 <= i < |refs| :: p == FactPointer(i)
  {
    hide FactPointer;
    if refs != [] {
      var init, n := refs[..|refs| - 1], |refs| - 1;
      FactsExact(init);
      forall i | 0 <= i < |refs| ensures FactPointer(i) in Facts(refs) && Facts(refs)[FactPointer(i)] == refs[i] {
        if i < n {
          assert init[i] == refs[i];
          if FactPointer(i) == FactPointer(n) {
            FactPointerInjective(i, n);
          }
        }
      }
    }
  }

  lemma {:induction false} PlainEscape(s: string)
    requires '~' !in s && '/' !in s
    ensures Escape(s) == s
  {
    if s != [] {
      assert s == [s[0]] + s[1..];
      PlainEscape(s[1..]);
      EscapeCons(s[0], s[1..]);
    }
  }

  lemma FactPointerIsPointer(i: nat)
    ensures FactPointer(i) == Pointer([FACT_REFS, Decimal(i)])
  {
    hide Decimal, Escape;
    var d := Decimal(i);
    PlainEscape(FACT_REFS);
    PlainEscape(d);
    var segments := [FACT_REFS, d];
    assert Map(Escape, segments) == segments;
    assert segments[1..] == [d];
    assert Join(segments, '/') == FACT_REFS + ['/'] + d;
    assert Pointer(segments) == "/" + (FACT_REFS + ['/'] + d);
    assert "/" + (FACT_REFS + ['/'] + d) == "/fact_refs/" + d;
  }

  lemma FactReached(payload: Json, i: nat)
    requires HoldsFactRefs(payload) && i < |payload.fields[FACT_REFS].items|
    ensures Reaches(payload, [FACT_REFS, Decimal(i)], payload.fields[FACT_REFS].items[i].s)
  {
    hide Decimal;
    var listed := payload.fields[FACT_REFS];
    var text := listed.items[i].s;
    assert [Decimal(i)][1..] == [];
    assert Reaches(listed, [Decimal(i)], text);
    assert [FACT_REFS, Decimal(i)][1..] == [Decimal(i)];
  }

  /** The fact pointers are the canonical pointers of the leaves they name. */
  lemma FactPointerIsLeaf(payload: Json, i: nat)
    requires FactRefs(payload).Some? && i < |FactRefs(payload).value|
    ensures FactPointer(i) == Pointer([FACT_REFS, Decimal(i)])
    ensures FactPointer(i) in LeavesByPointer(payload)
    ensures LeavesByPointer(payload)[FactPointer(i)] == FactRefs(payload).value[i]
  {
    hide Decimal, LeavesByPointer, Reaches, Pointer, FactPointer;
    FactPointerIsPointer(i);
    FactReached(payload, i);
    LeavesByPointerExact(payload);
  }

  function Members(refs: seq<string>): set<string> {
    set r | r in refs
  }

  /** len(values) == len(set(values)) exactly for pairwise distinct values. */
  lemma {:induction false} DistinctCount(refs: seq<string>)
    ensures |Members(refs)| <= |refs|
    ensures |Members(refs)| == |refs| <==> Distinct(refs)
  {
    if refs != [] {
      var init, last := refs[..|refs| - 1], refs[|refs| - 1];
      DistinctCount(init);
      assert refs == init + [last];
      assert Members(refs) == Members(init) + {last};
      assert last in init <==> last in Members(init);
      if Distinct(refs) {
        assert forall i | 0 <= i < |init| :: refs[i] != refs[|refs| - 1];
      }
    }
  }

  // ------------------------------------------------------------------- findings

  /** The claim is current, verified and maps to exactly this fact. */
  predicate MapsTo(claims: Claims, claimId: string, fact: string) {
    claimId in claims && claims[claimId].factId == Some(fact) && claims[claimId].claim.status.ClaimVerified?
  }

  function HeadFindings(payload: Json): seq<Finding> {
    var invalid := Finding(FactRefsInvalid, FACT_REFS_PATH, None);
    match FactRefs(payload)
    case None => [invalid, invalid]
    case Some(refs) => (if refs == [] then [invalid] else []) + (if |Members(refs)| != |refs| then [invalid] else [])
  }

  function FactsOf(payload: Json): map<string, string> {
    if FactRefs(payload).Some? then Facts(FactRefs(payload).value) else map[]
  }

  function JudgedFact(c: Checks, facts: map<string, string>, claims: Claims, pointer: string,
                      here: seq<ClaimUsage>): seq<Finding> {
    if pointer !in facts || |here| != 1 then [Finding(UsageUnbound, pointer, None)]
    else if !c.canonicalFact(facts[pointer]) || here[0].statementHash != c.hash(facts[pointer]) then
      [Finding(UsageUnbound, pointer, Some(here[0].claimId))]
    else if !MapsTo(claims, here[0].claimId, facts[pointer]) then
      [Finding(ClaimNotCurrentVerified, pointer, Some(here[0].claimId))]
    else []
  }

  predicate LinkedAt(c: Checks, facts: map<string, string>, claims: Claims, usages: seq<ClaimUsage>, pointer: string) {
    JudgedFact(c, facts, claims, pointer, UsagesAt(usages, pointer)) == []
  }

  function JudgeFactUsage(c: Checks, facts: map<string, string>, claims: Claims,
                          usages: seq<ClaimUsage>): string -> seq<Finding> {
    pointer => JudgedFact(c, facts, claims, pointer, UsagesAt(usages, pointer))
  }

  function JudgeFact(c: Checks, facts: map<string, string>, claims: Claims,
                     usages: seq<ClaimUsage>): string -> seq<Finding> {
    pointer =>
      if pointer !in facts then [] else
      (if c.canonicalFact(facts[pointer]) then [] else [Finding(FactRefsInvalid, pointer, None)]) +
      (if LinkedAt(c, facts, claims, usages, pointer) then [] else [Finding(StatementUnbound, pointer, None)])
  }

  function JudgeProse(c: Checks, leaves: map<string, string>, facts: map<string, string>): string -> seq<Finding> {
    pointer =>
      if pointer in facts || pointer !in leaves then [] else
      (if c.mentionsFact(leaves[pointer]) then [Finding(FactInProse, pointer, None)] else []) +
      (if c.dependent(pointer, leaves[pointer]) then [Finding(SourceProseForbidden, pointer, None)] else [])
  }

  function RecommendationFindings(c: Checks, payload: Json, usages: seq<ClaimUsage>, claims: Claims): seq<Finding> {
    var facts, leaves := FactsOf(payload), LeavesByPointer(payload);
    HeadFindings(payload) +
    Collect(SortedKeys(PointersOf(usages)), JudgeFactUsage(c, facts, claims, usages)) +
    Collect(SortedKeys(facts.Keys), JudgeFact(c, facts, claims, usages)) +
    Collect(SortedKeys(leaves.Keys), JudgeProse(c, leaves, facts))
  }

  // ----------------------------------------------------------------- the program

  /** _fact_pointers: the dictionary, its values in insertion order, and the finding
      for a malformed fact_refs. */
  method FactPointers(payload: Json) returns (facts: map<string, string>, values: seq<string>, findings: seq<Finding>)
    ensures facts == FactsOf(payload)
    ensures FactRefs(payload).Some? ==> values == FactRefs(payload).value && findings == []
    ensures FactRefs(payload).None? ==> values == [] && findings == [Finding(FactRefsInvalid, FACT_REFS_PATH, None)]
  {
    facts, values, findings := map[], [], [];
    if !HoldsFactRefs(payload) {
      findings := [Finding(FactRefsInvalid, FACT_REFS_PATH, None)];
      return;
    }
    var raw := payload.fields[FACT_REFS].items;
    ghost var refs := FactRefs(payload).value;
    hide FactPointer, HoldsFactRefs;
    for i := 0 to |raw|
      invariant values == refs[..i] && facts == Facts(values)
    {
      assert raw[i].JString? by { HeldFact(payload, i); }
      facts := facts[FactPointer(i) := raw[i].s];
      values := values + [raw[i].s];
      assert values[..|values| - 1] == refs[..i];
    }
    assert values == refs;
  }

  lemma HeldFact(payload: Json, i: nat)
    requires HoldsFactRefs(payload) && i < |payload.fields[FACT_REFS].items|
    ensures payload.fields[FACT_REFS].items[i].JString?
  {
  }

  /** The body of the loop over used pointers. */
  method JudgeFactUsageAt(c: Checks, facts: map<string, string>, claims: Claims, pointer: string, here: seq<ClaimUsage>)
    returns (found: seq<Finding>)
    requires here != []
    ensures found == JudgedFact(c, facts, claims, pointer, here)
  {
    if pointer !in facts || |here| != 1 {
      return [Finding(UsageUnbound, pointer, None)];
    }
    var statement, usage := facts[pointer], here[0];
    var canonicalFact := c.canonicalFact(statement);
    var exactHash := usage.statementHash == c.hash(statement);
    if !canonicalFact || !exactHash {
      return [Finding(UsageUnbound, pointer, Some(usage.claimId))];
    }
    if usage.claimId !in claims || claims[usage.claimId].factId != Some(statement) ||
      !claims[usage.claimId].claim.status.ClaimVerified? {
      return [Finding(ClaimNotCurrentVerified, pointer, Some(usage.claimId))];
    }
    return [];
  }

  /** The loop over used pointers: its findings, and the pointers it leaves bound. */
  method BindUsages(c: Checks, facts: map<string, string>, claims: Claims, usages: seq<ClaimUsage>)
    returns (findings: seq<Finding>, bound: set<string>)
    ensures findings == Collect(SortedKeys(PointersOf(usages)), JudgeFactUsage(c, facts, claims, usages))
    ensures forall p :: p in bound <==> p in PointersOf(usages) && LinkedAt(c, facts, claims, usages, p)
  {
    hide *;
    var groups := GroupUsages(usages);
    findings, bound := [], {};
    var keys := SortedKeys(groups.Keys);
    ghost var judge := JudgeFactUsage(c, facts, claims, usages);
    CollectNone(judge);
    for i := 0 to |keys|
      invariant findings == Collect(keys[..i], judge)
      invariant forall p :: p in bound <==> p in keys[..i] && LinkedAt(c, facts, claims, usages, p)
    {
      var found := JudgeFactUsageAt(c, facts, claims, keys[i], groups[keys[i]]);
      JudgeFactUsageIs(c, facts, claims, usages, keys[i]);
      CollectNext(keys, i, judge);
      assert keys[..i + 1] == keys[..i] + [keys[i]];
      findings := findings + found;
      if found == [] {
        bound := bound + {keys[i]};
      }
    }
    assert keys[..|keys|] == keys;
  }

  lemma JudgeFactUsageIs(c: Checks, facts: map<string, string>, claims: Claims, usages: seq<ClaimUsage>,
                         pointer: string)
    ensures JudgeFactUsage(c, facts, claims, usages)(pointer)
         == JudgedFact(c, facts, claims, pointer, UsagesAt(usages, pointer))
    ensures LinkedAt(c, facts, claims, usages, pointer) <==> JudgeFactUsage(c, facts, claims, usages)(pointer) == []
  {
  }

  /** The loop over fact_refs. */
  method CheckFacts(c: Checks, facts: map<string, string>, bound: set<string>, ghost claims: Claims,
                    ghost usages: seq<ClaimUsage>)
    returns (findings: seq<Finding>)
    requires forall p :: p in bound <==> p in PointersOf(usages) && LinkedAt(c, facts, claims, usages, p)
    ensures findings == Collect(SortedKeys(facts.Keys), JudgeFact(c, facts, claims, usages))
  {
    hide SortedKeys, Collect, JudgedFact, UsagesAt, LinkedAt;
    LinkedAreUsed(c, facts, claims, usages);
    findings := [];
    var keys := SortedKeys(facts.Keys);
    ghost var judge := JudgeFact(c, facts, claims, usages);
    CollectNone(judge);
    for i := 0 to |keys|
      invariant findings == Collect(keys[..i], judge)
    {
      CollectNext(keys, i, judge);
      var pointer := keys[i];
      if !c.canonicalFact(facts[pointer]) {
        findings := findings + [Finding(FactRefsInvalid, pointer, None)];
      }
      if pointer !in bound {
        findings := findings + [Finding(StatementUnbound, pointer, None)];
      }
    }
    assert keys[..|keys|] == keys;
  }

  lemma LinkedAreUsed(c: Checks, facts: map<string, string>, claims: Claims, usages: seq<ClaimUsage>)
    ensures forall p | LinkedAt(c, facts, claims, usages, p) :: p in PointersOf(usages)
  {
    UsedIsListed(usages);
  }

  /** _reject_blind_prose. */
  method RejectBlindProse(c: Checks, leaves: map<string, string>, facts: map<string, string>)
    returns (findings: seq<Finding>)
    ensures findings == Collect(SortedKeys(leaves.Keys), JudgeProse(c, leaves, facts))
  {
    hide SortedKeys, Collect;
    findings := [];
    var keys := SortedKeys(leaves.Keys);
    ghost var judge := JudgeProse(c, leaves, facts);
    CollectNone(judge);
    for i := 0 to |keys|
      invariant findings == Collect(keys[..i], judge)
    {
      CollectNext(keys, i, judge);
      var pointer := keys[i];
      if pointer in facts {
        continue;
      }
      if c.mentionsFact(leaves[pointer]) {
        findings := findings + [Finding(FactInProse, pointer, None)];
      }
      if c.dependent(pointer, leaves[pointer]) {
        findings := findings + [Finding(SourceProseForbidden, pointer, None)];
      }
    }
    assert keys[..|keys|] == keys;
  }

  /** validate_blind_recommendation. */
  method ValidateRecommendation(c: Checks, payload: Json, usages: seq<ClaimUsage>, claims: Claims)
    returns (findings: seq<Finding>)
    ensures findings == RecommendationFindings(c, payload, usages, claims)
  {
    hide Collect, SortedKeys, JudgeFactUsage, JudgeFact, JudgeProse, FactsOf, FactRefs, LinkedAt, LeavesByPointer;
    var leaves := LeavesByPointer(payload);
    var facts, values, malformed := FactPointers(payload);
    findings := malformed;
    if values == [] {
      findings := findings + [Finding(FactRefsInvalid, FACT_REFS_PATH, None)];
    }
    if |values| != |Members(values)| {
      findings := findings + [Finding(FactRefsInvalid, FACT_REFS_PATH, None)];
    }
    assert findings == HeadFindings(payload);
    var unbound, bound := BindUsages(c, facts, claims, usages);
    var unlinked := CheckFacts(c, facts, bound, claims, usages);
    var prose := RejectBlindProse(c, leaves, facts);
    findings := findings + unbound + unlinked + prose;
  }

  // ---------------------------------------------------------------- main theorem

  ghost predicate Links(c: Checks, refs: seq<string>, claims: Claims, u: ClaimUsage, i: nat)
    requires i < |refs|
  {
    u.pointer == FactPointer(i) && u.statementHash == c.hash(refs[i]) && MapsTo(claims, u.claimId, refs[i])
  }

  ghost predicate NoMarkers(c: Checks, payload: Json, refs: seq<string>) {
    forall p | p in LeavesByPointer(payload) && (forall i | 0 <= i < |refs| :: p != FactPointer(i)) ::
      !c.mentionsFact(LeavesByPointer(payload)[p]) && !c.dependent(p, LeavesByPointer(payload)[p])
  }

  /** The usages are a bijection onto nonempty, distinct, canonical fact_refs, each by
      a claim mapped to that same fact, and no other leaf carries a prose marker. */
  ghost predicate ExactlyLinked(c: Checks, payload: Json, usages: seq<ClaimUsage>, claims: Claims) {
    && FactRefs(payload).Some?
    && var refs := FactRefs(payload).value;
    && refs != [] && Distinct(refs)
    && (forall i | 0 <= i < |refs| :: c.canonicalFact(refs[i]))
    && DistinctPointers(usages)
    && (forall u | u in usages :: exists i | 0 <= i < |refs| :: Links(c, refs, claims, u, i))
    && (forall i | 0 <= i < |refs| :: FactPointer(i) in PointersOf(usages))
    && NoMarkers(c, payload, refs)
  }

  lemma RecommendationPassesExactly(c: Checks, payload: Json, usages: seq<ClaimUsage>, claims: Claims)
    ensures RecommendationFindings(c, payload, usages, claims) == [] <==> ExactlyLinked(c, payload, usages, claims)
  {
    hide RecommendationFindings, ExactlyLinked;
    if RecommendationFindings(c, payload, usages, claims) == [] {
      CleanIsLinked(c, payload, usages, claims);
    }
    if ExactlyLinked(c, payload, usages, claims) {
      LinkedIsClean(c, payload, usages, claims);
    }
  }

  /** The parts of an empty list of findings. */
  lemma NoFindings(c: Checks, payload: Json, usages: seq<ClaimUsage>, claims: Claims)
    ensures var facts, leaves := FactsOf(payload), LeavesByPointer(payload);
            RecommendationFindings(c, payload, usages, claims) == [] <==>
            && HeadFindings(payload) == []
            && (forall p | p in PointersOf(usages) :: JudgeFactUsage(c, facts, claims, usages)(p) == [])
            && (forall p | p in facts :: JudgeFact(c, facts, claims, usages)(p) == [])
            && (forall p | p in leaves :: JudgeProse(c, leaves, facts)(p) == [])
  {
    hide Collect, SortedKeys, JudgeFactUsage, JudgeFact, JudgeProse, FactsOf, HeadFindings, LeavesByPointer;
    var facts, leaves := FactsOf(payload), LeavesByPointer(payload);
    CollectEmpty(SortedKeys(PointersOf(usages)), JudgeFactUsage(c, facts, claims, usages));
    CollectEmpty(SortedKeys(facts.Keys), JudgeFact(c, facts, claims, usages));
    CollectEmpty(SortedKeys(leaves.Keys), JudgeProse(c, leaves, facts));
  }

  lemma CleanUsageLinks(c: Checks, refs: seq<string>, claims: Claims, usages: seq<ClaimUsage>, u: ClaimUsage)
    requires u in usages && JudgeFactUsage(c, Facts(refs), claims, usages)(u.pointer) == []
    ensures exists i | 0 <= i < |refs| :: Links(c, refs, claims, u, i)
  {
    hide UsagesAt, FactPointer, Facts;
    FactsExact(refs);
    UsedOnce(usages, u);
    var i :| 0 <= i < |refs| && u.pointer == FactPointer(i);
    assert Links(c, refs, claims, u, i);
  }

  lemma CleanIsLinked(c: Checks, payload: Json, usages: seq<ClaimUsage>, claims: Claims)
    requires RecommendationFindings(c, payload, usages, claims) == []
    ensures ExactlyLinked(c, payload, usages, claims)
  {
    hide UsagesAt, RecommendationFindings, DistinctPointers, FactPointer, LeavesByPointer, Facts, FactRefs, Distinct;
    NoFindings(c, payload, usages, claims);
    var refs, facts := FactRefs(payload).value, FactsOf(payload);
    DistinctCount(refs);
    FactsExact(refs);
    forall p | p in PointersOf(usages) ensures p in facts && |UsagesAt(usages, p)| == 1 {
      assert JudgeFactUsage(c, facts, claims, usages)(p) == [];
    }
    SingleUsages(usages);
    forall u | u in usages ensures exists i | 0 <= i < |refs| :: Links(c, refs, claims, u, i) {
      assert u.pointer in PointersOf(usages);
      CleanUsageLinks(c, refs, claims, usages, u);
    }
    LinkedAreUsed(c, facts, claims, usages);
    forall i | 0 <= i < |refs| ensures FactPointer(i) in PointersOf(usages) && c.canonicalFact(refs[i]) {
      assert JudgeFact(c, facts, claims, usages)(FactPointer(i)) == [];
    }
    assert NoMarkers(c, payload, refs) by {
      forall p | p in LeavesByPointer(payload) && (forall i | 0 <= i < |refs| :: p != FactPointer(i))
        ensures !c.mentionsFact(LeavesByPointer(payload)[p]) && !c.dependent(p, LeavesByPointer(payload)[p])
      {
        assert JudgeProse(c, LeavesByPointer(payload), facts)(p) == [];
      }
    }
  }

  lemma LinkedIsClean(c: Checks, payload: Json, usages: seq<ClaimUsage>, claims: Claims)
    requires ExactlyLinked(c, payload, usages, claims)
    ensures RecommendationFindings(c, payload, usages, claims) == []
  {
    hide UsagesAt, RecommendationFindings, DistinctPointers, FactPointer, LeavesByPointer, Facts, FactRefs, Distinct;
    NoFindings(c, payload, usages, claims);
    var refs, facts := FactRefs(payload).value, FactsOf(payload);
    DistinctCount(refs);
    FactsExact(refs);
    SingleUsages(usages);
    forall p | p in PointersOf(usages) ensures JudgeFactUsage(c, facts, claims, usages)(p) == [] {
      var u :| u in usages && u.pointer == p;
      UsedOnce(usages, u);
      var i :| 0 <= i < |refs| && Links(c, refs, claims, u, i);
    }
    forall p | p in facts ensures JudgeFact(c, facts, claims, usages)(p) == [] {
      var i :| 0 <= i < |refs| && p == FactPointer(i);
      assert JudgeFactUsage(c, facts, claims, usages)(p) == [];
      JudgeFactUsageIs(c, facts, claims, usages, p);
    }
    forall p | p in LeavesByPointer(payload) ensures JudgeProse(c, LeavesByPointer(payload), facts)(p) == [] {
      if p !in facts {
        assert forall i | 0 <= i < |refs| :: p != FactPointer(i);
      }
    }
  }

  // ------------------------------------------------------ what each finding says

  /** The usage names a canonical fact's pointer and carries that fact's exact hash. */
  ghost predicate BindsFact(c: Checks, facts: map<string, string>, u: ClaimUsage) {
    u.pointer in facts && c.canonicalFact(facts[u.pointer]) && u.statementHash == c.hash(facts[u.pointer])
  }

  /** What each code of a recommendation's findings says of it. */
  ghost predicate RecommendationFault(c: Checks, payload: Json, usages: seq<ClaimUsage>, claims: Claims, f: Finding) {
    var facts, leaves := FactsOf(payload), LeavesByPointer(payload);
    match f.code
    case FactRefsInvalid =>
      f.claimId.None? && (HeadFault(payload, f.pointer) || (f.pointer in facts && !c.canonicalFact(facts[f.pointer])))
    case UsageUnbound =>
      if f.claimId.None? then
        f.pointer in PointersOf(usages) &&
        (f.pointer !in facts || forall u | SoleUsage(usages, u) :: u.pointer != f.pointer)
      else
        f.pointer in facts &&
        exists u ::
          SoleUsage(usages, u) && u.pointer == f.pointer && u.claimId == f.claimId.value && !BindsFact(c, facts, u)
    case ClaimNotCurrentVerified =>
      exists u :: SoleUsage(usages, u) && BindsFact(c, facts, u) && !MapsTo(claims, u.claimId, facts[u.pointer]) &&
        f.pointer == u.pointer && f.claimId == Some(u.claimId)
    case StatementUnbound =>
      f.claimId.None? && f.pointer in facts &&
      forall u | SoleUsage(usages, u) && u.pointer == f.pointer ::
        !(BindsFact(c, facts, u) && MapsTo(claims, u.claimId, facts[u.pointer]))
    case FactInProse =>
      f.claimId.None? && f.pointer in leaves && f.pointer !in facts && c.mentionsFact(leaves[f.pointer])
    case SourceProseForbidden =>
      f.claimId.None? && f.pointer in leaves && f.pointer !in facts && c.dependent(f.pointer, leaves[f.pointer])
  }

  /** fact_refs is missing or malformed, empty, or repeats a fact. */
  ghost predicate HeadFault(payload: Json, pointer: string) {
    pointer == FACT_REFS_PATH &&
    (FactRefs(payload).None? || FactRefs(payload).value == [] || !Distinct(FactRefs(payload).value))
  }

  lemma HeadMeans(payload: Json, f: Finding)
    ensures f in HeadFindings(payload) <==>
              f.code.FactRefsInvalid? && f.claimId.None? && HeadFault(payload, f.pointer)
  {
    hide Distinct;
    if FactRefs(payload).Some? {
      DistinctCount(FactRefs(payload).value);
    }
  }

  lemma FactUsageMeans(c: Checks, payload: Json, usages: seq<ClaimUsage>, claims: Claims, pointer: string, f: Finding)
    requires pointer in PointersOf(usages)
    ensures f in JudgeFactUsage(c, FactsOf(payload), claims, usages)(pointer) <==>
              f.pointer == pointer && (f.code.UsageUnbound? || f.code.ClaimNotCurrentVerified?) &&
              RecommendationFault(c, payload, usages, claims, f)
  {
    hide UsagesAt, SoleUsage, FactsOf, FactRefs, LeavesByPointer, HeadFault;
    SoleAt(usages, pointer);
    var here := UsagesAt(usages, pointer);
    if |here| == 1 {
      assert forall u | SoleUsage(usages, u) && u.pointer == pointer :: u == here[0];
    }
  }

  lemma FactMeans(c: Checks, payload: Json, usages: seq<ClaimUsage>, claims: Claims, pointer: string, f: Finding)
    ensures f in JudgeFact(c, FactsOf(payload), claims, usages)(pointer) <==>
              && f.pointer == pointer && f.claimId.None?
              && (if f.code.FactRefsInvalid? then
                    f.pointer in FactsOf(payload) && !c.canonicalFact(FactsOf(payload)[f.pointer])
                  else f.code.StatementUnbound? && RecommendationFault(c, payload, usages, claims, f))
  {
    hide UsagesAt, SoleUsage, FactsOf, FactRefs, LeavesByPointer, HeadFault;
    SoleAt(usages, pointer);
    var here := UsagesAt(usages, pointer);
    if |here| == 1 {
      assert forall u | SoleUsage(usages, u) && u.pointer == pointer :: u == here[0];
    }
  }

  lemma ProseMeans(c: Checks, payload: Json, usages: seq<ClaimUsage>, claims: Claims, pointer: string, f: Finding)
    ensures f in JudgeProse(c, LeavesByPointer(payload), FactsOf(payload))(pointer) <==>
              f.pointer == pointer && (f.code.FactInProse? || f.code.SourceProseForbidden?) &&
              RecommendationFault(c, payload, usages, claims, f)
  {
    hide FactsOf, FactRefs, LeavesByPointer;
  }

  lemma UsageFindingsMean(c: Checks, payload: Json, usages: seq<ClaimUsage>, claims: Claims, f: Finding)
    ensures f in Collect(SortedKeys(PointersOf(usages)), JudgeFactUsage(c, FactsOf(payload), claims, usages)) <==>
              (f.code.UsageUnbound? || f.code.ClaimNotCurrentVerified?) &&
              RecommendationFault(c, payload, usages, claims, f)
  {
    CollectMembers(SortedKeys(PointersOf(usages)), JudgeFactUsage(c, FactsOf(payload), claims, usages), f);
    RecommendationFaultWhere(c, payload, usages, claims, f);
    OwnPointer(c, payload, usages, claims, f);
    if f.pointer in PointersOf(usages) {
      FactUsageMeans(c, payload, usages, claims, f.pointer, f);
    }
    hide RecommendationFault, JudgeFactUsage, UsagesAt, SortedKeys, Collect, FactsOf, LeavesByPointer, PointersOf;
  }

  lemma FactFindingsMean(c: Checks, payload: Json, usages: seq<ClaimUsage>, claims: Claims, f: Finding)
    ensures var facts := FactsOf(payload);
            f in Collect(SortedKeys(facts.Keys), JudgeFact(c, facts, claims, usages)) <==>
              && f.claimId.None?
              && if f.code.FactRefsInvalid? then f.pointer in facts && !c.canonicalFact(facts[f.pointer])
                 else f.code.StatementUnbound? && RecommendationFault(c, payload, usages, claims, f)
  {
    CollectMembers(SortedKeys(FactsOf(payload).Keys), JudgeFact(c, FactsOf(payload), claims, usages), f);
    RecommendationFaultWhere(c, payload, usages, claims, f);
    OwnPointer(c, payload, usages, claims, f);
    FactMeans(c, payload, usages, claims, f.pointer, f);
    hide RecommendationFault, JudgeFact, UsagesAt, SortedKeys, Collect, FactsOf, LeavesByPointer;
  }

  lemma ProseFindingsMean(c: Checks, payload: Json, usages: seq<ClaimUsage>, claims: Claims, f: Finding)
    ensures var facts, leaves := FactsOf(payload), LeavesByPointer(payload);
            f in Collect(SortedKeys(leaves.Keys), JudgeProse(c, leaves, facts)) <==>
              (f.code.FactInProse? || f.code.SourceProseForbidden?) &&
              RecommendationFault(c, payload, usages, claims, f)
  {
    var facts, leaves := FactsOf(payload), LeavesByPointer(payload);
    CollectMembers(SortedKeys(leaves.Keys), JudgeProse(c, leaves, facts), f);
    RecommendationFaultWhere(c, payload, usages, claims, f);
    OwnPointer(c, payload, usages, claims, f);
    ProseMeans(c, payload, usages, claims, f.pointer, f);
    hide RecommendationFault, JudgeProse, SortedKeys, Collect, FactsOf, LeavesByPointer;
  }

  /** A finding is listed exactly when what its code says holds. */
  lemma RecommendationFindingsExactly(c: Checks, payload: Json, usages: seq<ClaimUsage>, claims: Claims, f: Finding)
    ensures f in RecommendationFindings(c, payload, usages, claims) <==>
              RecommendationFault(c, payload, usages, claims, f)
  {
    HeadMeans(payload, f);
    UsageFindingsMean(c, payload, usages, claims, f);
    FactFindingsMean(c, payload, usages, claims, f);
    ProseFindingsMean(c, payload, usages, claims, f);
    RecommendationFindingsParts(c, payload, usages, claims, f);
    if f.code.FactRefsInvalid? {
      InvalidRefsMean(c, payload, usages, claims, f);
    }
    hide RecommendationFindings, RecommendationFault, JudgeFactUsage, JudgeFact, JudgeProse, HeadFault, HeadFindings;
    hide SortedKeys, Collect, FactsOf, LeavesByPointer;
  }

  lemma InvalidRefsMean(c: Checks, payload: Json, usages: seq<ClaimUsage>, claims: Claims, f: Finding)
    requires f.code.FactRefsInvalid?
    ensures RecommendationFault(c, payload, usages, claims, f) <==>
              f.claimId.None? && (HeadFault(payload, f.pointer) ||
                                  (f.pointer in FactsOf(payload) && !c.canonicalFact(FactsOf(payload)[f.pointer])))
  {
    hide FactsOf, HeadFault, LeavesByPointer;
  }

  lemma RecommendationFindingsParts(c: Checks, payload: Json, usages: seq<ClaimUsage>, claims: Claims, f: Finding)
    ensures var facts, leaves := FactsOf(payload), LeavesByPointer(payload);
            f in RecommendationFindings(c, payload, usages, claims) <==>
              || f in HeadFindings(payload)
              || f in Collect(SortedKeys(PointersOf(usages)), JudgeFactUsage(c, facts, claims, usages))
              || f in Collect(SortedKeys(facts.Keys), JudgeFact(c, facts, claims, usages))
              || f in Collect(SortedKeys(leaves.Keys), JudgeProse(c, leaves, facts))
  {
    hide HeadFindings, Collect, SortedKeys, FactsOf, LeavesByPointer;
  }

  /** Every judge reports on its own pointer only. */
  lemma OwnPointer(c: Checks, payload: Json, usages: seq<ClaimUsage>, claims: Claims, f: Finding)
    ensures var facts, leaves := FactsOf(payload), LeavesByPointer(payload);
            && (forall p | f in JudgeFactUsage(c, facts, claims, usages)(p) :: p == f.pointer)
            && (forall p | f in JudgeFact(c, facts, claims, usages)(p) :: p == f.pointer)
            && (forall p | f in JudgeProse(c, leaves, facts)(p) :: p == f.pointer)
  {
    hide FactsOf, FactRefs, LeavesByPointer, UsagesAt, LinkedAt;
  }

  lemma RecommendationFaultWhere(c: Checks, payload: Json, usages: seq<ClaimUsage>, claims: Claims, f: Finding)
    ensures RecommendationFault(c, payload, usages, claims, f) ==>
              match f.code
              case FactRefsInvalid => HeadFault(payload, f.pointer) || f.pointer in FactsOf(payload)
              case UsageUnbound => f.pointer in PointersOf(usages)
              case ClaimNotCurrentVerified => f.pointer in PointersOf(usages)
              case StatementUnbound => f.pointer in FactsOf(payload)
              case _ => f.pointer in LeavesByPointer(payload)
  {
    hide FactsOf, FactRefs, LeavesByPointer;
    forall u | SoleUsage(usages, u) ensures u.pointer in PointersOf(usages) {
      assert u in usages;
    }
  }
}
