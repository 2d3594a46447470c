/** The claim-integrity validator for one accepted artifact
    (src/envresearch/benchmarks/claim_integrity.py lines 188-280), and what both
    artifact validators share.

    Whether a statement is source-dependent, whether a string is a canonical fact
    id or contains one, and the statement digest are parameters. */
module ClaimIntegrity {
  import opened Options
  import opened Ordering
  import opened JsonPointers

  datatype ClaimStatus = Unverified | MetadataVerified | ClaimVerified | Rejected | Stale

  datatype Claim = Claim(claimId: string, status: ClaimStatus)

  /** A source claim and the blinded fact it currently maps to, if eligible. */
  datatype CurrentClaim = CurrentClaim(claim: Claim, factId: Option<string>)

  type Claims = map<string, CurrentClaim>

  datatype ClaimUsage = ClaimUsage(claimId: string, pointer: string, statementHash: string)

  datatype Code =
    | UsageUnbound | ClaimNotCurrentVerified | StatementUnbound
    | FactRefsInvalid | FactInProse | SourceProseForbidden

  datatype Finding = Finding(code: Code, pointer: string, claimId: Option<string>)

  /** The text-level judgements the validator is given. */
  datatype Checks = Checks(
    dependent: (string, string) -> bool,     // _is_source_dependent for this artifact
    hash: string -> string,                  // _statement_sha256
    canonicalFact: string -> bool,           // _FACT_ID.fullmatch
    mentionsFact: string -> bool)            // _FACT_ID_TOKEN.search

  // --------------------------------------------------------- grouping by pointer

  function UsagesAt(usages: seq<ClaimUsage>, pointer: string): seq<ClaimUsage> {
    if usages == [] then []
    else
      var last := usages[|usages| - 1];
      UsagesAt(usages[..|usages| - 1], pointer) + (if last.pointer == pointer then [last] else [])
  }

  function PointersOf(usages: seq<ClaimUsage>): set<string> {
    set u | u in usages :: u.pointer
  }

  /** usages_by_pointer, filled by setdefault and append. */
  method GroupUsages(usages: seq<ClaimUsage>) returns (groups: map<string, seq<ClaimUsage>>)
    ensures groups.Keys == PointersOf(usages)
    ensures forall p | p in groups :: groups[p] == UsagesAt(usages, p) != []
  {
    groups := map[];
    for i := 0 to |usages|
      invariant groups.Keys == PointersOf(usages[..i])
      invariant forall p | p in groups :: groups[p] == UsagesAt(usages[..i], p) != []
      invariant forall p | p !in groups :: UsagesAt(usages[..i], p) == []
    {
      var u := usages[i];
      assert usages[..i + 1][..i] == usages[..i];
      if u.pointer !in groups {
        groups := groups[u.pointer := []];
      }
      groups := groups[u.pointer := groups[u.pointer] + [u]];
    }
    assert usages[..|usages|] == usages;
  }

  lemma {:induction false} UsagesAtMembers(usages: seq<ClaimUsage>, pointer: string)
    ensures forall u :: u in UsagesAt(usages, pointer) <==> u in usages && u.pointer == pointer
  {
    if usages != [] {
      UsagesAtMembers(usages[..|usages| - 1], pointer);
      assert usages == usages[..|usages| - 1] + [usages[|usages| - 1]];
    }
  }

  ghost predicate DistinctPointers(usages: seq<ClaimUsage>) {
    forall i, j | 0 <= i < j < |usages| :: usages[i].pointer != usages[j].pointer
  }

  lemma UsedIsListed(usages: seq<ClaimUsage>)
    ensures forall p :: p in PointersOf(usages) <==> UsagesAt(usages, p) != []
  {
    forall p ensures p in PointersOf(usages) <==> UsagesAt(usages, p) != [] {
      UsagesAtMembers(usages, p);
      if u :| u in usages && u.pointer == p {
        assert u in UsagesAt(usages, p);
      }
      if UsagesAt(usages, p) != [] {
        assert UsagesAt(usages, p)[0] in usages;
      }
    }
  }

  lemma LastIsUnused(init: seq<ClaimUsage>, last: ClaimUsage)
    ensures UsagesAt(init, last.pointer) == [] <==> forall u | u in init :: u.pointer != last.pointer
  {
    UsagesAtMembers(init, last.pointer);
    UsedIsListed(init);
    assert last.pointer in PointersOf(init) <==> exists u | u in init :: u.pointer == last.pointer;
  }

  lemma DistinctPointersSnoc(init: seq<ClaimUsage>, last: ClaimUsage)
    ensures DistinctPointers(init + [last]) <==>
              DistinctPointers(init) && forall u | u in init :: u.pointer != last.pointer
  {
    var usages := init + [last];
    if DistinctPointers(usages) {
      forall i, j | 0 <= i < j < |init| ensures init[i].pointer != init[j].pointer {
        assert usages[i].pointer != usages[j].pointer;
      }
      forall i | 0 <= i < |init| ensures init[i].pointer != last.pointer {
        assert usages[i].pointer != usages[|init|].pointer;
      }
    }
  }

  lemma UsagesAtSnoc(init: seq<ClaimUsage>, last: ClaimUsage, pointer: string)
    ensures UsagesAt(init + [last], pointer)
         == UsagesAt(init, pointer) + (if last.pointer == pointer then [last] else [])
  {
    assert (init + [last])[..|init|] == init;
  }

  ghost predicate EachOnce(usages: seq<ClaimUsage>) {
    forall p | p in PointersOf(usages) :: |UsagesAt(usages, p)| == 1
  }

  /** Every pointer carries a single usage exactly when no two usages share one. */
  lemma {:induction false} SingleUsages(usages: seq<ClaimUsage>)
    ensures DistinctPointers(usages) <==> EachOnce(usages)
  {
    hide UsagesAt, DistinctPointers;
    if usages == [] {
      assert DistinctPointers(usages) by { DistinctNone(); }
    } else {
      var init, last := usages[..|usages| - 1], usages[|usages| - 1];
      assert usages == init + [last];
      SingleUsages(init);
      DistinctPointersSnoc(init, last);
      LastIsUnused(init, last);
      EachOnceSnoc(init, last);
    }
  }

  lemma DistinctNone()
    ensures DistinctPointers([])
  {
  }

  lemma EachOnceSnoc(init: seq<ClaimUsage>, last: ClaimUsage)
    ensures EachOnce(init + [last]) <==> EachOnce(init) && UsagesAt(init, last.pointer) == []
  {
    hide UsagesAt;
    var usages := init + [last];
    assert PointersOf(usages) == PointersOf(init) + {last.pointer} by {
      assert forall u :: u in usages <==> u in init || u == last;
    }
    forall p ensures |UsagesAt(usages, p)| == |UsagesAt(init, p)| + (if last.pointer == p then 1 else 0) {
      UsagesAtSnoc(init, last, p);
    }
    UsedIsListed(init);
  }

  // ---------------------------------------------------------------- collecting

  /** The findings of each key, in key order. */
  function Collect(keys: seq<string>, judge: string -> seq<Finding>): seq<Finding> {
    if keys == [] then [] else Collect(keys[..|keys| - 1], judge) + judge(keys[|keys| - 1])
  }

  lemma {:induction false} CollectEmpty(keys: seq<string>, judge: string -> seq<Finding>)
    ensures Collect(keys, judge) == [] <==> forall k | k in keys :: judge(k) == []
  {
    if keys != [] {
      CollectEmpty(keys[..|keys| - 1], judge);
      assert keys == keys[..|keys| - 1] + [keys[|keys| - 1]];
    }
  }

  lemma CollectNone(judge: string -> seq<Finding>)
    ensures Collect([], judge) == []
  {
  }

  lemma CollectNext(keys: seq<string>, i: nat, judge: string -> seq<Finding>)
    requires i < |keys|
    ensures Collect(keys[..i + 1], judge) == Collect(keys[..i], judge) + judge(keys[i])
  {
    assert keys[..i + 1][..i] == keys[..i];
  }

  // --------------------------------------------------------- ordinary artifacts

  predicate CurrentVerified(claims: Claims, claimId: string) {
    claimId in claims && claims[claimId].factId.Some? && claims[claimId].claim.status.ClaimVerified?
  }

  /** The findings of one pointer and the usages recorded there. */
  function Judged(c: Checks, leaves: map<string, string>, claims: Claims, pointer: string,
                  here: seq<ClaimUsage>): seq<Finding> {
    if pointer !in leaves || |here| != 1 then [Finding(UsageUnbound, pointer, None)]
    else if !BindsAt(c, leaves, pointer, here) then [Finding(UsageUnbound, pointer, Some(here[0].claimId))]
    else if !CurrentVerified(claims, here[0].claimId) then
      [Finding(ClaimNotCurrentVerified, pointer, Some(here[0].claimId))]
    else []
  }

  /** A single usage binds the exact text of the source-dependent leaf there. */
  predicate BindsAt(c: Checks, leaves: map<string, string>, pointer: string, here: seq<ClaimUsage>) {
    && pointer in leaves
    && |here| == 1
    && c.dependent(pointer, leaves[pointer])
    && here[0].statementHash == c.hash(leaves[pointer])
  }

  function JudgePointer(c: Checks, leaves: map<string, string>, usages: seq<ClaimUsage>,
                        claims: Claims): string -> seq<Finding> {
    pointer => Judged(c, leaves, claims, pointer, UsagesAt(usages, pointer))
  }

  predicate BoundAt(c: Checks, leaves: map<string, string>, usages: seq<ClaimUsage>, pointer: string) {
    BindsAt(c, leaves, pointer, UsagesAt(usages, pointer))
  }

  function JudgeLeaf(c: Checks, leaves: map<string, string>, usages: seq<ClaimUsage>): string -> seq<Finding> {
    pointer =>
      if pointer in leaves && c.dependent(pointer, leaves[pointer]) && !BoundAt(c, leaves, usages, pointer)
      then [Finding(StatementUnbound, pointer, None)] else []
  }

  function OrdinaryFindings(c: Checks, leaves: map<string, string>, usages: seq<ClaimUsage>,
                            claims: Claims): seq<Finding> {
    Collect(SortedKeys(PointersOf(usages)), JudgePointer(c, leaves, usages, claims)) +
    Collect(SortedKeys(leaves.Keys), JudgeLeaf(c, leaves, usages))
  }

  /** The body of the loop over used pointers. */
  method JudgeUsage(c: Checks, leaves: map<string, string>, claims: Claims, pointer: string, here: seq<ClaimUsage>)
    returns (found: seq<Finding>, binds: bool)
    requires here != []
    ensures found == Judged(c, leaves, claims, pointer, here)
    ensures binds == BindsAt(c, leaves, pointer, here)
  {
    if pointer !in leaves || |here| != 1 {
      return [Finding(UsageUnbound, pointer, None)], false;
    }
    var usage := here[0];
    if !c.dependent(pointer, leaves[pointer]) {
      return [Finding(UsageUnbound, pointer, Some(usage.claimId))], false;
    }
    if usage.statementHash != c.hash(leaves[pointer]) {
      return [Finding(UsageUnbound, pointer, Some(usage.claimId))], false;
    }
    if usage.claimId !in claims || claims[usage.claimId].factId.None? ||
      !claims[usage.claimId].claim.status.ClaimVerified? {
      return [Finding(ClaimNotCurrentVerified, pointer, Some(usage.claimId))], true;
    }
    return [], true;
  }

  /** The validator for every artifact but the method recommendation. */
  method ValidateOrdinary(c: Checks, payload: Json, usages: seq<ClaimUsage>, claims: Claims)
    returns (findings: seq<Finding>)
    ensures findings == OrdinaryFindings(c, LeavesByPointer(payload), usages, claims)
  {
    hide *;
    var leaves := LeavesByPointer(payload);
    var groups := GroupUsages(usages);
    findings := [];
    var bound: set<string> := {};
    var keys := SortedKeys(groups.Keys);
    ghost var judge := JudgePointer(c, leaves, usages, claims);
    CollectNone(judge);
    for i := 0 to |keys|
      invariant findings == Collect(keys[..i], judge)
      invariant forall p :: p in bound <==> p in keys[..i] && BoundAt(c, leaves, usages, p)
    {
      var pointer := keys[i];
      var found, binds := JudgeUsage(c, leaves, claims, pointer, groups[pointer]);
      JudgePointerIs(c, leaves, usages, claims, pointer);
      CollectNext(keys, i, judge);
      assert keys[..i + 1] == keys[..i] + [pointer];
      findings := findings + found;
      if binds {
        bound := bound + {pointer};
      }
    }
    assert keys[..|keys|] == keys;
    OnlyUsedAreBound(c, leaves, usages);
    var leafKeys := SortedKeys(leaves.Keys);
    ghost var usageFindings := findings;
    ghost var judgeLeaf := JudgeLeaf(c, leaves, usages);
    CollectNone(judgeLeaf);
    for i := 0 to |leafKeys|
      invariant findings == usageFindings + Collect(leafKeys[..i], judgeLeaf)
    {
      var pointer := leafKeys[i];
      JudgeLeafIs(c, leaves, usages, pointer);
      CollectNext(leafKeys, i, judgeLeaf);
      if c.dependent(pointer, leaves[pointer]) && pointer !in bound {
        findings := findings + [Finding(StatementUnbound, pointer, None)];
      }
    }
    assert leafKeys[..|leafKeys|] == leafKeys;
    OrdinaryFindingsIs(c, leaves, usages, claims);
  }

  lemma JudgePointerIs(c: Checks, leaves: map<string, string>, usages: seq<ClaimUsage>, claims: Claims, pointer: string)
    ensures JudgePointer(c, leaves, usages, claims)(pointer)
         == Judged(c, leaves, claims, pointer, UsagesAt(usages, pointer))
    ensures BoundAt(c, leaves, usages, pointer) == BindsAt(c, leaves, pointer, UsagesAt(usages, pointer))
  {
  }

  lemma JudgeLeafIs(c: Checks, leaves: map<string, string>, usages: seq<ClaimUsage>, pointer: string)
    requires pointer in leaves
    ensures JudgeLeaf(c, leaves, usages)(pointer) ==
            if c.dependent(pointer, leaves[pointer]) && !BoundAt(c, leaves, usages, pointer)
            then [Finding(StatementUnbound, pointer, None)] else []
  {
  }

  lemma OrdinaryFindingsIs(c: Checks, leaves: map<string, string>, usages: seq<ClaimUsage>, claims: Claims)
    ensures OrdinaryFindings(c, leaves, usages, claims) ==
            Collect(SortedKeys(PointersOf(usages)), JudgePointer(c, leaves, usages, claims)) +
            Collect(SortedKeys(leaves.Keys), JudgeLeaf(c, leaves, usages))
  {
  }

  lemma OnlyUsedAreBound(c: Checks, leaves: map<string, string>, usages: seq<ClaimUsage>)
    ensures forall p | BoundAt(c, leaves, usages, p) :: p in PointersOf(usages)
  {
    UsedIsListed(usages);
  }

  function DependentPointers(c: Checks, leaves: map<string, string>): set<string> {
    set p | p in leaves && c.dependent(p, leaves[p])
  }

  /** The usages are a bijection onto the source-dependent leaves, each with the
      leaf's exact hash and a current verified mapped claim. */
  ghost predicate ExactlyClaimed(c: Checks, leaves: map<string, string>, usages: seq<ClaimUsage>, claims: Claims) {
    && DistinctPointers(usages)
    && PointersOf(usages) == DependentPointers(c, leaves)
    && (forall u | u in usages ::
         u.pointer in leaves && u.statementHash == c.hash(leaves[u.pointer]) && CurrentVerified(claims, u.claimId))
  }

  lemma UsedOnce(usages: seq<ClaimUsage>, u: ClaimUsage)
    requires u in usages && |UsagesAt(usages, u.pointer)| == 1
    ensures UsagesAt(usages, u.pointer) == [u]
  {
    UsagesAtMembers(usages, u.pointer);
    assert u in UsagesAt(usages, u.pointer);
  }

  /** No findings exactly for such a bijection. */
  lemma OrdinaryPassesExactly(c: Checks, leaves: map<string, string>, usages: seq<ClaimUsage>, claims: Claims)
    ensures OrdinaryFindings(c, leaves, usages, claims) == [] <==> ExactlyClaimed(c, leaves, usages, claims)
  {
    hide ExactlyClaimed, OrdinaryFindings;
    if OrdinaryFindings(c, leaves, usages, claims) == [] {
      CleanIsExact(c, leaves, usages, claims);
    }
    if ExactlyClaimed(c, leaves, usages, claims) {
      ExactIsClean(c, leaves, usages, claims);
    }
  }

  lemma CleanIsExact(c: Checks, leaves: map<string, string>, usages: seq<ClaimUsage>, claims: Claims)
    requires OrdinaryFindings(c, leaves, usages, claims) == []
    ensures ExactlyClaimed(c, leaves, usages, claims)
  {
    hide UsagesAt, SortedKeys, Collect, DistinctPointers;
    var judge, leafJudge := JudgePointer(c, leaves, usages, claims), JudgeLeaf(c, leaves, usages);
    CollectEmpty(SortedKeys(PointersOf(usages)), judge);
    CollectEmpty(SortedKeys(leaves.Keys), leafJudge);
    forall p | p in PointersOf(usages) ensures judge(p) == [] && |UsagesAt(usages, p)| == 1 {
      assert p in SortedKeys(PointersOf(usages));
    }
    SingleUsages(usages);
    forall u | u in usages
      ensures u.pointer in DependentPointers(c, leaves) && u.statementHash == c.hash(leaves[u.pointer]) &&
              CurrentVerified(claims, u.claimId)
    {
      assert u.pointer in PointersOf(usages);
      assert judge(u.pointer) == [];
      UsedOnce(usages, u);
    }
    OnlyUsedAreBound(c, leaves, usages);
    forall p | p in DependentPointers(c, leaves) ensures p in PointersOf(usages) {
      assert p in SortedKeys(leaves.Keys);
      assert leafJudge(p) == [];
    }
  }

  lemma ExactIsClean(c: Checks, leaves: map<string, string>, usages: seq<ClaimUsage>, claims: Claims)
    requires ExactlyClaimed(c, leaves, usages, claims)
    ensures OrdinaryFindings(c, leaves, usages, claims) == []
  {
    hide UsagesAt, SortedKeys, Collect, DistinctPointers;
    var judge, leafJudge := JudgePointer(c, leaves, usages, claims), JudgeLeaf(c, leaves, usages);
    CollectEmpty(SortedKeys(PointersOf(usages)), judge);
    CollectEmpty(SortedKeys(leaves.Keys), leafJudge);
    SingleUsages(usages);
    forall p | p in PointersOf(usages) ensures judge(p) == [] && BoundAt(c, leaves, usages, p) {
      var u :| u in usages && u.pointer == p;
      UsedOnce(usages, u);
      assert p in DependentPointers(c, leaves);
    }
    forall p | p in SortedKeys(leaves.Keys) ensures leafJudge(p) == [] {
      if c.dependent(p, leaves[p]) {
        assert p in DependentPointers(c, leaves);
      }
    }
  }

  // ------------------------------------------------------ what each finding says

  lemma {:induction false} CollectMembers(keys: seq<string>, judge: string -> seq<Finding>, f: Finding)
    ensures f in Collect(keys, judge) <==> exists k | k in keys :: f in judge(k)
  {
    if keys != [] {
      CollectMembers(keys[..|keys| - 1], judge, f);
      assert keys == keys[..|keys| - 1] + [keys[|keys| - 1]];
    }
  }

  /** The usage is listed once, and no other names its pointer. */
  ghost predicate SoleUsage(usages: seq<ClaimUsage>, u: ClaimUsage) {
    exists i :: 0 <= i < |usages| && usages[i] == u &&
      forall j | 0 <= j < |usages| && j != i :: usages[j].pointer != u.pointer
  }

  /** A pointer has exactly one usage recorded when that usage is the only one naming it. */
  lemma {:induction false} SoleExactly(usages: seq<ClaimUsage>, pointer: string, u: ClaimUsage)
    ensures UsagesAt(usages, pointer) == [u] <==> u.pointer == pointer && SoleUsage(usages, u)
  {
    if usages != [] {
      var init, last := usages[..|usages| - 1], usages[|usages| - 1];
      assert usages == init + [last];
      SoleExactly(init, pointer, u);
      UsagesAtSnoc(init, last, pointer);
      LastIsUnused(init, last);
      SoleSnoc(init, last, u);
      AppendedIsOne(UsagesAt(init, pointer), last, u);
      hide SoleUsage, UsagesAt;
    }
  }

  lemma AppendedIsOne<T>(s: seq<T>, x: T, y: T)
    ensures s + [x] == [y] <==> s == [] && x == y
  {
    assert (s + [x])[|s|] == x && [y][0] == y && |s + [x]| == |s| + 1;
    if s == [] && x == y {
      assert s + [x] == [y];
    }
  }

  lemma SoleSnoc(init: seq<ClaimUsage>, last: ClaimUsage, u: ClaimUsage)
    ensures SoleUsage(init + [last], u) <==>
              || (last.pointer != u.pointer && SoleUsage(init, u))
              || (last == u && forall v | v in init :: v.pointer != u.pointer)
  {
    var usages := init + [last];
    if SoleUsage(usages, u) {
      var i :|
        0 <= i < |usages| && usages[i] == u && forall j | 0 <= j < |usages| && j != i :: usages[j].pointer != u.pointer;
      if i < |init| {
        assert init[i] == u && usages[|init|] == last;
        assert forall j | 0 <= j < |init| :: usages[j] == init[j];
      } else {
        assert forall j | 0 <= j < |init| :: usages[j] == init[j];
      }
    }
    if last.pointer != u.pointer && SoleUsage(init, u) {
      var i :| 0 <= i < |init| && init[i] == u && forall j | 0 <= j < |init| && j != i :: init[j].pointer != u.pointer;
      assert usages[i] == u;
    }
    if last == u && forall v | v in init :: v.pointer != u.pointer {
      assert usages[|init|] == u;
      assert forall j | 0 <= j < |init| :: usages[j] == init[j] && init[j] in init;
    }
  }

  /** The usage names a source-dependent leaf and carries its exact hash. */
  ghost predicate Binds(c: Checks, leaves: map<string, string>, u: ClaimUsage) {
    u.pointer in leaves && c.dependent(u.pointer, leaves[u.pointer]) && u.statementHash == c.hash(leaves[u.pointer])
  }

  /** What each code of an ordinary artifact's findings says of it. */
  ghost predicate OrdinaryFault(c: Checks, leaves: map<string, string>, usages: seq<ClaimUsage>, claims: Claims,
                                f: Finding)
  {
    match f.code
    case UsageUnbound =>
      if f.claimId.None? then
        f.pointer in PointersOf(usages) &&
        (f.pointer !in leaves || forall u | SoleUsage(usages, u) :: u.pointer != f.pointer)
      else
        f.pointer in leaves &&
        exists u :: SoleUsage(usages, u) && u.pointer == f.pointer && u.claimId == f.claimId.value &&
          !Binds(c, leaves, u)
    case ClaimNotCurrentVerified =>
      exists u :: SoleUsage(usages, u) && Binds(c, leaves, u) && !CurrentVerified(claims, u.claimId) &&
        f.pointer == u.pointer && f.claimId == Some(u.claimId)
    case StatementUnbound =>
      f.claimId.None? && f.pointer in leaves && c.dependent(f.pointer, leaves[f.pointer]) &&
      forall u | SoleUsage(usages, u) && u.pointer == f.pointer :: !Binds(c, leaves, u)
    case _ => false
  }

  lemma SoleAt(usages: seq<ClaimUsage>, pointer: string)
    ensures |UsagesAt(usages, pointer)| == 1 ==>
              SoleUsage(usages, UsagesAt(usages, pointer)[0]) && UsagesAt(usages, pointer)[0].pointer == pointer
    ensures forall u | SoleUsage(usages, u) && u.pointer == pointer :: UsagesAt(usages, pointer) == [u]
    ensures pointer in PointersOf(usages) <==> UsagesAt(usages, pointer) != []
  {
    hide UsagesAt, SoleUsage;
    if |UsagesAt(usages, pointer)| == 1 {
      SoleExactly(usages, pointer, UsagesAt(usages, pointer)[0]);
    }
    forall u | SoleUsage(usages, u) && u.pointer == pointer ensures UsagesAt(usages, pointer) == [u] {
      SoleExactly(usages, pointer, u);
    }
    UsedIsListed(usages);
  }

  lemma JudgedMeans(c: Checks, leaves: map<string, string>, usages: seq<ClaimUsage>, claims: Claims, pointer: string,
                    f: Finding)
    requires pointer in PointersOf(usages)
    ensures f in JudgePointer(c, leaves, usages, claims)(pointer) <==>
              f.pointer == pointer && !f.code.StatementUnbound? && OrdinaryFault(c, leaves, usages, claims, f)
  {
    hide UsagesAt, SoleUsage;
    SoleAt(usages, pointer);
    var here := UsagesAt(usages, pointer);
    if |here| == 1 {
      assert forall u | SoleUsage(usages, u) && u.pointer == pointer :: u == here[0];
    }
  }

  lemma LeafJudgedMeans(c: Checks, leaves: map<string, string>, usages: seq<ClaimUsage>, claims: Claims,
                        pointer: string, f: Finding)
    ensures f in JudgeLeaf(c, leaves, usages)(pointer) <==>
              f.pointer == pointer && f.code.StatementUnbound? && OrdinaryFault(c, leaves, usages, claims, f)
  {
    hide UsagesAt, SoleUsage;
    SoleAt(usages, pointer);
    var here := UsagesAt(usages, pointer);
    if |here| == 1 {
      assert forall u | SoleUsage(usages, u) && u.pointer == pointer :: u == here[0];
    }
  }

  /** A finding is listed exactly when what its code says holds. */
  lemma OrdinaryFindingsExactly(c: Checks, leaves: map<string, string>, usages: seq<ClaimUsage>, claims: Claims,
                                f: Finding)
    ensures f in OrdinaryFindings(c, leaves, usages, claims) <==> OrdinaryFault(c, leaves, usages, claims, f)
  {
    var judge, leafJudge := JudgePointer(c, leaves, usages, claims), JudgeLeaf(c, leaves, usages);
    CollectMembers(SortedKeys(PointersOf(usages)), judge, f);
    CollectMembers(SortedKeys(leaves.Keys), leafJudge, f);
    FaultIsUsed(c, leaves, usages, claims, f);
    hide UsagesAt, SortedKeys, Collect, OrdinaryFault, JudgePointer, JudgeLeaf;
    forall p | p in PointersOf(usages)
      ensures f in judge(p) <==>
                f.pointer == p && !f.code.StatementUnbound? && OrdinaryFault(c, leaves, usages, claims, f)
    {
      JudgedMeans(c, leaves, usages, claims, p, f);
    }
    forall p
      ensures f in leafJudge(p) <==>
                f.pointer == p && f.code.StatementUnbound? && OrdinaryFault(c, leaves, usages, claims, f)
    {
      LeafJudgedMeans(c, leaves, usages, claims, p, f);
    }
  }

  lemma FaultIsUsed(c: Checks, leaves: map<string, string>, usages: seq<ClaimUsage>, claims: Claims, f: Finding)
    ensures OrdinaryFault(c, leaves, usages, claims, f) ==>
              if f.code.StatementUnbound? then f.pointer in leaves else f.pointer in PointersOf(usages)
  {
    forall u | SoleUsage(usages, u) ensures u.pointer in PointersOf(usages) {
      assert u in usages;
    }
  }
}
