/** Validating a generation of accepted artifacts into a report, and verifying the
    report's binding later (src/envresearch/benchmarks/claim_integrity.py lines
    81-140, 188-203, 368-401; claim_report.py lines 50-141). */
module ClaimReport {
  import opened Options
  import opened Ordering
  import opened Artifacts
  import opened JsonPointers
  import opened ClaimIntegrity
  import opened CurrentClaims
  import opened ReportCodec
  import BlindClaims

  const METHOD_RECOMMENDATION := "method-recommendation"
  const VALIDATOR_VERSION := "claim-integrity-v1"
  const BLIND_VALIDATOR_VERSION := "blind-claim-integrity-v2"

  datatype Artifact = Artifact(ref: ArtifactRef, payload: Json, usages: seq<ClaimUsage>)

  /** What the binding digest is taken over. */
  datatype Body = Body(
    sourceRefs: seq<ArtifactRef>,
    mapRefs: seq<ArtifactRef>,
    briefRefs: seq<ArtifactRef>,
    bindings: seq<Binding>,
    version: string)

  /** The text-level judgements and digests, as parameters. */
  datatype Validator = Validator(
    dependent: (string, string, string) -> bool,
    hash: string -> string,
    canonicalFact: string -> bool,
    mentionsFact: string -> bool,
    key: ArtifactRef -> string,              // str(ref)
    seal: Body -> string,                    // SHA-256 of the canonical JSON
    describe: Finding -> string)
  {
    function ChecksFor(id: string): Checks {
      Checks((pointer, statement) => dependent(pointer, statement, id), hash, canonicalFact, mentionsFact)
    }

    ghost predicate Digests() {
      forall s :: HexDigest(hash(s))
    }
  }

  // ------------------------------------------------------------ unique and sorted

  function Elements<T>(xs: seq<T>): set<T> {
    set x | x in xs
  }

  /** len(xs) == len(set(xs)). */
  predicate Unique<T(==)>(xs: seq<T>) {
    |Elements(xs)| == |xs|
  }

  lemma SortKeepsUnique<T>(xs: seq<T>, key: T -> string)
    ensures Unique(SortBy(xs, key)) <==> Unique(xs)
    ensures SortBy(xs, key) == [] <==> xs == []
  {
    SortPermutes(xs, key);
    assert Elements(SortBy(xs, key)) == Elements(xs);
  }

  lemma SortTwice<T(!new)>(xs: seq<T>, key: T -> string)
    ensures SortBy(SortBy(xs, key), key) == SortBy(xs, key)
  {
    SortSorted(xs, key);
    SortFixed(SortBy(xs, key), key);
  }

  // ---------------------------------------------------------------------- bindings

  function StatementKey(u: ClaimUsage): string { u.statementHash }

  function ClaimIdKey(u: ClaimUsage): string { u.claimId }

  function PointerKey(u: ClaimUsage): string { u.pointer }

  /** Sorting by a tuple of strings is stable sorting by each of them, last first. */
  function SortUsages(usages: seq<ClaimUsage>): seq<ClaimUsage> {
    SortBy(SortBy(SortBy(usages, StatementKey), ClaimIdKey), PointerKey)
  }

  lemma SortUsagesMembers(usages: seq<ClaimUsage>)
    ensures forall u :: u in SortUsages(usages) <==> u in usages
  {
    var byHash := SortBy(usages, StatementKey);
    var byClaim := SortBy(byHash, ClaimIdKey);
    SortPermutes(usages, StatementKey);
    SortPermutes(byHash, ClaimIdKey);
    SortPermutes(byClaim, PointerKey);
  }

  function HashLeaf(hash: string -> string): Leaf -> LeafHash {
    (leaf: Leaf) => LeafHash(Pointer(leaf.path), hash(leaf.text))
  }

  /** accepted_artifact_binding. */
  function BindingOf(v: Validator, a: Artifact): Binding {
    Binding(a.ref, Map(HashLeaf(v.hash), Leaves(a.payload, [])), SortUsages(a.usages))
  }

  function ToBinding(v: Validator): Artifact -> Binding {
    a => BindingOf(v, a)
  }

  function BindingKey(v: Validator): Binding -> string {
    (b: Binding) => v.key(b.artifactRef)
  }

  /** dict(payload_leaf_hashes). */
  function HashDict(hashes: seq<LeafHash>): map<string, string> {
    if hashes == [] then map[]
    else HashDict(hashes[..|hashes| - 1])[hashes[|hashes| - 1].pointer := hashes[|hashes| - 1].digest]
  }

  /** The recorded hashes, as a dictionary, hash the payload's leaves one for one. */
  lemma {:induction false} HashDictHashesLeaves(leaves: seq<Leaf>, hash: string -> string)
    ensures HashDict(Map(HashLeaf(hash), leaves)).Keys == LeafMap(leaves).Keys
    ensures forall p | p in LeafMap(leaves) :: HashDict(Map(HashLeaf(hash), leaves))[p] == hash(LeafMap(leaves)[p])
  {
    hide Pointer;
    if leaves != [] {
      var init := leaves[..|leaves| - 1];
      HashDictHashesLeaves(init, hash);
      var hashes := Map(HashLeaf(hash), leaves);
      assert hashes[..|hashes| - 1] == Map(HashLeaf(hash), init);
    }
  }

  // ----------------------------------------------------------------------- sealing

  /** binding_sha256. */
  function BindingDigest(v: Validator, sources: seq<ArtifactRef>, maps: seq<ArtifactRef>, briefs: seq<ArtifactRef>,
                         bindings: seq<Binding>, version: string): string {
    v.seal(Body(SortBy(sources, v.key), SortBy(maps, v.key), SortBy(briefs, v.key),
                SortBy(bindings, BindingKey(v)), version))
  }

  predicate BoundUsages(b: Binding) {
    var leaves := HashDict(b.leafHashes);
    && |leaves| == |b.leafHashes|
    && (forall p | p in leaves :: HexDigest(leaves[p]))
    && (forall u | u in b.usages :: u.pointer in leaves && leaves[u.pointer] == u.statementHash)
  }

  predicate GroupIsCanonical(refs: seq<ArtifactRef>, key: ArtifactRef -> string) {
    refs != [] && Unique(refs) && refs == SortBy(refs, key)
  }

  function RefOf(b: Binding): ArtifactRef { b.artifactRef }

  /** report_binding_is_valid. */
  predicate BindingIsValid(v: Validator, r: Report) {
    && GroupIsCanonical(r.sourceRefs, v.key)
    && GroupIsCanonical(r.mapRefs, v.key)
    && GroupIsCanonical(r.briefRefs, v.key)
    && GroupIsCanonical(r.artifactRefs, v.key)
    && GroupIsCanonical(Map(RefOf, r.bindings), v.key)
    && r.artifactRefs == Map(RefOf, r.bindings)
    && (forall b | b in r.bindings :: BoundUsages(b))
    && r.digest == BindingDigest(v, r.sourceRefs, r.mapRefs, r.briefRefs, r.bindings, r.version)
  }

  // -------------------------------------------------------------------- validating

  function ArtifactFindings(v: Validator, a: Artifact, claims: Claims): seq<Finding> {
    if a.ref.artifactId == METHOD_RECOMMENDATION
    then BlindClaims.RecommendationFindings(v.ChecksFor(METHOD_RECOMMENDATION), a.payload, a.usages, claims)
    else OrdinaryFindings(v.ChecksFor(a.ref.artifactId), LeavesByPointer(a.payload), a.usages, claims)
  }

  /** _validate_artifact. */
  method ValidateArtifact(v: Validator, a: Artifact, claims: Claims) returns (findings: seq<Finding>)
    ensures findings == ArtifactFindings(v, a, claims)
  {
    if a.ref.artifactId == METHOD_RECOMMENDATION {
      findings := BlindClaims.ValidateRecommendation(v.ChecksFor(METHOD_RECOMMENDATION), a.payload, a.usages, claims);
    } else {
      findings := ValidateOrdinary(v.ChecksFor(a.ref.artifactId), a.payload, a.usages, claims);
    }
  }

  function ArtifactRefOf(a: Artifact): ArtifactRef { a.ref }

  /** _require_exact_coverage does not raise. */
  predicate ExactCoverage(g: Generation, mapRefs: seq<ArtifactRef>, artifacts: seq<Artifact>) {
    && g.sheets != [] && g.maps != [] && artifacts != []
    && |g.sheets| == |g.sheetRefs| && |g.maps| == |mapRefs| && |g.maps| == |g.briefRefs|
    && Unique(g.sheetRefs) && Unique(mapRefs) && Unique(Map(ArtifactRefOf, artifacts))
    && (forall i | 0 <= i < |g.maps| :: Matches(g, i))
  }

  function Record(v: Validator, ref: ArtifactRef): Finding -> CitationFinding {
    (f: Finding) => CitationFinding(CodeName(f.code), ref, f.pointer, f.claimId, v.describe(f))
  }

  function CodeName(c: Code): string {
    match c
    case UsageUnbound => "CLAIM_USAGE_UNBOUND"
    case ClaimNotCurrentVerified => "CLAIM_NOT_CURRENT_VERIFIED"
    case StatementUnbound => "SOURCE_STATEMENT_UNBOUND"
    case FactRefsInvalid => "BLIND_FACT_REFS_INVALID"
    case FactInProse => "BLIND_FACT_IN_PROSE"
    case SourceProseForbidden => "BLIND_SOURCE_PROSE_FORBIDDEN"
  }

  /** The report validate builds from its findings. */
  function ReportOf(v: Validator, g: Generation, mapRefs: seq<ArtifactRef>, artifacts: seq<Artifact>,
                    findings: seq<CitationFinding>): Report {
    var version :=
      if exists a | a in artifacts :: a.ref.artifactId == METHOD_RECOMMENDATION
      then BLIND_VALIDATOR_VERSION
      else VALIDATOR_VERSION;
    var bindings := SortBy(Map(ToBinding(v), artifacts), BindingKey(v));
    Report(findings, findings == [], version,
           SortBy(g.sheetRefs, v.key), SortBy(mapRefs, v.key), SortBy(g.briefRefs, v.key),
           SortBy(Map(ArtifactRefOf, artifacts), v.key), bindings,
           BindingDigest(v, g.sheetRefs, mapRefs, g.briefRefs, bindings, version))
  }

  // ------------------------------------------------------- what the report contains

  /** By pointer, then claim, then hash. */
  predicate UsageBefore(u: ClaimUsage, w: ClaimUsage) {
    Below(u.pointer, w.pointer) &&
    (u.pointer == w.pointer ==>
       Below(u.claimId, w.claimId) && (u.claimId == w.claimId ==> Below(u.statementHash, w.statementHash)))
  }

  lemma SortUsagesSpelled(usages: seq<ClaimUsage>)
    ensures multiset(SortUsages(usages)) == multiset(usages)
    ensures var r := SortUsages(usages); forall i, j | 0 <= i < j < |r| :: UsageBefore(r[i], r[j])
  {
    var byHash := SortBy(usages, StatementKey);
    var byClaim := SortBy(byHash, ClaimIdKey);
    var byPointer := SortBy(byClaim, PointerKey);
    SortPermutes(usages, StatementKey);
    SortPermutes(byHash, ClaimIdKey);
    SortPermutes(byClaim, PointerKey);
    SortSorted(usages, StatementKey);
    SortSorted(byHash, ClaimIdKey);
    SortSorted(byClaim, PointerKey);
    var hashes := (u: ClaimUsage, w: ClaimUsage) => Below(u.statementHash, w.statementHash);
    SortStable(byHash, ClaimIdKey, hashes);
    var claims := (u: ClaimUsage, w: ClaimUsage) =>
      Below(u.claimId, w.claimId) && (u.claimId == w.claimId ==> Below(u.statementHash, w.statementHash));
    forall i, j | 0 <= i < j < |byClaim| ensures claims(byClaim[i], byClaim[j]) {
      assert Below(ClaimIdKey(byClaim[i]), ClaimIdKey(byClaim[j]));
    }
    SortStable(byClaim, PointerKey, claims);
    forall i, j | 0 <= i < j < |byPointer| ensures UsageBefore(byPointer[i], byPointer[j]) {
      assert Below(PointerKey(byPointer[i]), PointerKey(byPointer[j]));
    }
  }

  /** The binding is the artifact's: every leaf under its pointer with its own hash, and
      every usage, in order. */
  ghost predicate Reduces(v: Validator, a: Artifact, b: Binding) {
    && b.artifactRef == a.ref
    && multiset(b.usages) == multiset(a.usages)
    && (forall i, j | 0 <= i < j < |b.usages| :: UsageBefore(b.usages[i], b.usages[j]))
    && |b.leafHashes| == |LeavesByPointer(a.payload)|
    && forall p, h :: LeafHash(p, h) in b.leafHashes <==>
         p in LeavesByPointer(a.payload) && h == v.hash(LeavesByPointer(a.payload)[p])
  }

  /** The same references, sorted. */
  ghost predicate SortsRefs(v: Validator, refs: seq<ArtifactRef>, sorted: seq<ArtifactRef>) {
    multiset(sorted) == multiset(refs) && SortedBy(sorted, v.key)
  }

  /** Everything a report says of the generation it was built for. */
  ghost predicate Reports(v: Validator, g: Generation, mapRefs: seq<ArtifactRef>, artifacts: seq<Artifact>,
                          findings: seq<CitationFinding>, r: Report)
  {
    && r.findings == findings && (r.passed <==> findings == [])
    && SortsRefs(v, g.sheetRefs, r.sourceRefs) && SortsRefs(v, mapRefs, r.mapRefs)
    && SortsRefs(v, g.briefRefs, r.briefRefs) && SortsRefs(v, Map(ArtifactRefOf, artifacts), r.artifactRefs)
    && |r.bindings| == |artifacts| && SortedBy(r.bindings, BindingKey(v))
    && (forall a | a in artifacts :: exists b | b in r.bindings :: Reduces(v, a, b))
    && (forall b | b in r.bindings :: exists a | a in artifacts :: Reduces(v, a, b))
    && r.version == (if exists a | a in artifacts :: a.ref.artifactId == "method-recommendation"
                     then "blind-claim-integrity-v2" else "claim-integrity-v1")
  }

  lemma ReducesItself(v: Validator, a: Artifact)
    ensures Reduces(v, a, BindingOf(v, a))
  {
    hide Leaves, SortUsages, Pointer;
    var leaves := Leaves(a.payload, []);
    var b := BindingOf(v, a);
    SortUsagesSpelled(a.usages);
    LeavesByPointerExact(a.payload);
    LeavesDistinct(a.payload, []);
    forall p, h
      ensures LeafHash(p, h) in b.leafHashes <==>
                p in LeavesByPointer(a.payload) && h == v.hash(LeavesByPointer(a.payload)[p])
    {
      LeafHashesExactly(v, leaves, p, h);
    }
  }

  lemma SortSortsRefs(v: Validator, refs: seq<ArtifactRef>)
    ensures SortsRefs(v, refs, SortBy(refs, v.key))
  {
    SortPermutes(refs, v.key);
    SortSorted(refs, v.key);
  }

  /** The report that is built contains exactly that. */
  lemma ReportOfReports(v: Validator, g: Generation, mapRefs: seq<ArtifactRef>, artifacts: seq<Artifact>,
                        findings: seq<CitationFinding>)
    ensures Reports(v, g, mapRefs, artifacts, findings, ReportOf(v, g, mapRefs, artifacts, findings))
  {
    hide SortsRefs, Reduces, BindingDigest, BindingOf;
    SortSortsRefs(v, g.sheetRefs);
    SortSortsRefs(v, mapRefs);
    SortSortsRefs(v, g.briefRefs);
    SortSortsRefs(v, Map(ArtifactRefOf, artifacts));
    BindingsReduce(v, artifacts);
    hide SortBy, Map;
  }

  lemma BindingsReduce(v: Validator, artifacts: seq<Artifact>)
    ensures var bindings := SortBy(Map(ToBinding(v), artifacts), BindingKey(v));
            && |bindings| == |artifacts| && SortedBy(bindings, BindingKey(v))
            && (forall a | a in artifacts :: exists b | b in bindings :: Reduces(v, a, b))
            && (forall b | b in bindings :: exists a | a in artifacts :: Reduces(v, a, b))
  {
    hide Reduces, BindingOf;
    var all := Map(ToBinding(v), artifacts);
    var bindings := SortBy(all, BindingKey(v));
    SortPermutes(all, BindingKey(v));
    SortSorted(all, BindingKey(v));
    hide SortBy, SortedBy;
    forall a | a in artifacts ensures exists b | b in bindings :: Reduces(v, a, b) {
      var i :| 0 <= i < |artifacts| && artifacts[i] == a;
      assert all[i] == BindingOf(v, a) && all[i] in all;
      ReducesItself(v, a);
    }
    forall b | b in bindings ensures exists a | a in artifacts :: Reduces(v, a, b) {
      assert b in all;
      var i :| 0 <= i < |all| && all[i] == b;
      assert b == BindingOf(v, artifacts[i]) && artifacts[i] in artifacts;
      ReducesItself(v, artifacts[i]);
    }
  }

  lemma LeafHashesExactly(v: Validator, leaves: seq<Leaf>, p: string, h: string)
    requires DistinctPaths(leaves)
    ensures LeafHash(p, h) in Map(HashLeaf(v.hash), leaves) <==> p in LeafMap(leaves) && h == v.hash(LeafMap(leaves)[p])
  {
    LeafMapKeepsAll(leaves);
    HashedLeaves(v, leaves, p, h);
    hide Pointer, LeafMap, DistinctPaths, Map, HashLeaf;
  }

  lemma HashedLeaves(v: Validator, leaves: seq<Leaf>, p: string, h: string)
    ensures LeafHash(p, h) in Map(HashLeaf(v.hash), leaves) <==>
              exists l | l in leaves :: p == Pointer(l.path) && h == v.hash(l.text)
  {
    hide Pointer;
    var hashes := Map(HashLeaf(v.hash), leaves);
    if LeafHash(p, h) in hashes {
      var i :| 0 <= i < |hashes| && hashes[i] == LeafHash(p, h);
      assert leaves[i] in leaves && p == Pointer(leaves[i].path) && h == v.hash(leaves[i].text);
    }
    if l :| l in leaves && p == Pointer(l.path) && h == v.hash(l.text) {
      var i :| 0 <= i < |leaves| && leaves[i] == l;
      assert hashes[i] == LeafHash(p, h);
    }
  }

  /** No artifact has a finding against these claims. */
  ghost predicate AllClean(v: Validator, artifacts: seq<Artifact>, claims: Claims) {
    forall a | a in artifacts :: ArtifactFindings(v, a, claims) == []
  }

  /** Every artifact's findings, in artifact order, as the report records them. */
  function RecordedFindings(v: Validator, artifacts: seq<Artifact>, claims: Claims): seq<CitationFinding> {
    if artifacts == [] then []
    else
      var a := artifacts[|artifacts| - 1];
      RecordedFindings(v, artifacts[..|artifacts| - 1], claims) + Map(Record(v, a.ref), ArtifactFindings(v, a, claims))
  }

  lemma {:induction false} NothingRecorded(v: Validator, artifacts: seq<Artifact>, claims: Claims)
    ensures RecordedFindings(v, artifacts, claims) == [] <==> AllClean(v, artifacts, claims)
  {
    hide ArtifactFindings;
    if artifacts != [] {
      var init, last := artifacts[..|artifacts| - 1], artifacts[|artifacts| - 1];
      NothingRecorded(v, init, claims);
      assert artifacts == init + [last];
    }
  }

  /** The dictionary is the one the generation's sheets and maps determine: every claim
      id some sheet holds, its own claim when it occurs once, and the fact in force. */
  ghost predicate AreCurrent(g: Generation, claims: Claims)
    requires |g.maps| <= |g.briefRefs|
  {
    && (forall id :: id in claims <==> Occurrences(g.sheets, id) > 0)
    && (forall id, f :: (id in claims && claims[id].factId == Some(f)) <==>
          Occurrences(g.sheets, id) == 1 &&
          exists s: Seen | s.claim.claimId == id && Held(g.sheets, s) :: InForce(g, s.caseId, id, f))
    && (forall s: Seen | Held(g.sheets, s) && Occurrences(g.sheets, s.claim.claimId) == 1 ::
          s.claim.claimId in claims && claims[s.claim.claimId].claim == s.claim)
  }

  /** CitationIntegrityValidator.validate: nothing when the coverage check raises;
      otherwise the report of exactly the findings against the current claims. */
  method Validate(v: Validator, g: Generation, mapRefs: seq<ArtifactRef>, artifacts: seq<Artifact>)
    returns (report: Option<Report>, ghost claims: Claims)
    ensures report.Some? <==> ExactCoverage(g, mapRefs, artifacts)
    ensures report.Some? ==> AreCurrent(g, claims)
    ensures report.Some? ==> report == Some(ReportOf(v, g, mapRefs, artifacts, RecordedFindings(v, artifacts, claims)))
    ensures report.Some? ==> (report.value.passed <==> AllClean(v, artifacts, claims))
    ensures report.Some? ==>
              Reports(v, g, mapRefs, artifacts, RecordedFindings(v, artifacts, claims), report.value)
  {
    hide Reports;
    hide Matches, ArtifactFindings, BindingDigest, InForce, Held, Occurrences;
    if !ExactCoverage(g, mapRefs, artifacts) {
      return None, map[];
    }
    var current := Current(g);
    var collected: seq<CitationFinding> := [];
    for i := 0 to |artifacts|
      invariant collected == RecordedFindings(v, artifacts[..i], current)
    {
      assert artifacts[..i + 1][..i] == artifacts[..i];
      var found := ValidateArtifact(v, artifacts[i], current);
      collected := collected + Map(Record(v, artifacts[i].ref), found);
    }
    assert artifacts[..|artifacts|] == artifacts;
    NothingRecorded(v, artifacts, current);
    ReportOfReports(v, g, mapRefs, artifacts, collected);
    return Some(ReportOf(v, g, mapRefs, artifacts, collected)), current;
  }

  // ------------------------------------------------------------ passed reports verify

  /** In a clean artifact every usage carries the exact hash of the leaf it names. */
  lemma CleanUsagesBind(v: Validator, a: Artifact, claims: Claims, u: ClaimUsage)
    requires ArtifactFindings(v, a, claims) == [] && u in a.usages
    ensures u.pointer in LeavesByPointer(a.payload) && u.statementHash == v.hash(LeavesByPointer(a.payload)[u.pointer])
  {
    hide LeavesByPointer, OrdinaryFindings, BlindClaims.RecommendationFindings, BlindClaims.FactPointer,
      BlindClaims.FactRefs;
    if a.ref.artifactId == METHOD_RECOMMENDATION {
      var c := v.ChecksFor(METHOD_RECOMMENDATION);
      BlindClaims.RecommendationPassesExactly(c, a.payload, a.usages, claims);
      var refs := BlindClaims.FactRefs(a.payload).value;
      var i :| 0 <= i < |refs| && BlindClaims.Links(c, refs, claims, u, i);
      BlindClaims.FactPointerIsLeaf(a.payload, i);
    } else {
      OrdinaryPassesExactly(v.ChecksFor(a.ref.artifactId), LeavesByPointer(a.payload), a.usages, claims);
    }
  }

  lemma CleanBindingVerifies(v: Validator, a: Artifact, claims: Claims)
    requires v.Digests() && ArtifactFindings(v, a, claims) == []
    ensures BoundUsages(BindingOf(v, a))
  {
    hide HexDigest, ArtifactFindings, Pointer, Leaves, HashDict, LeafMap, SortUsages;
    var b, leaves := BindingOf(v, a), Leaves(a.payload, []);
    LeavesDistinct(a.payload, []);
    LeafMapKeepsAll(leaves);
    HashDictHashesLeaves(leaves, v.hash);
    var dict := HashDict(b.leafHashes);
    assert |dict| == |dict.Keys| && |LeafMap(leaves)| == |LeafMap(leaves).Keys|;
    SortUsagesMembers(a.usages);
    forall u | u in b.usages ensures u.pointer in dict && dict[u.pointer] == u.statementHash {
      CleanUsagesBind(v, a, claims, u);
    }
  }

  lemma BindingRefs(v: Validator, artifacts: seq<Artifact>)
    ensures Map(RefOf, SortBy(Map(ToBinding(v), artifacts), BindingKey(v)))
            == SortBy(Map(ArtifactRefOf, artifacts), v.key)
  {
    var bindings := Map(ToBinding(v), artifacts);
    SortMap(RefOf, bindings, v.key, BindingKey(v));
    assert Map(RefOf, bindings) == Map(ArtifactRefOf, artifacts);
  }

  lemma CanonicalWhenUnique(refs: seq<ArtifactRef>, key: ArtifactRef -> string)
    ensures GroupIsCanonical(SortBy(refs, key), key) <==> refs != [] && Unique(refs)
  {
    SortTwice(refs, key);
    SortKeepsUnique(refs, key);
  }

  lemma ReportBindingsBound(v: Validator, artifacts: seq<Artifact>, claims: Claims)
    requires v.Digests() && AllClean(v, artifacts, claims)
    ensures forall b | b in SortBy(Map(ToBinding(v), artifacts), BindingKey(v)) :: BoundUsages(b)
  {
    hide BoundUsages, BindingOf;
    var bindings := Map(ToBinding(v), artifacts);
    SortPermutes(bindings, BindingKey(v));
    forall b | b in bindings ensures BoundUsages(b) {
      var i :| 0 <= i < |bindings| && bindings[i] == b;
      CleanBindingVerifies(v, artifacts[i], claims);
    }
  }

  /** A passed report verifies exactly when its brief references are pairwise distinct,
      the one uniqueness the coverage check does not ask for. */
  lemma PassedReportVerifies(v: Validator, g: Generation, mapRefs: seq<ArtifactRef>, artifacts: seq<Artifact>,
                             claims: Claims)
    requires v.Digests() && ExactCoverage(g, mapRefs, artifacts) && AllClean(v, artifacts, claims)
    ensures BindingIsValid(v, ReportOf(v, g, mapRefs, artifacts, [])) <==> Unique(g.briefRefs)
  {
    hide GroupIsCanonical, BoundUsages, BindingOf, Unique, AllClean, Matches;
    CanonicalWhenUnique(g.sheetRefs, v.key);
    CanonicalWhenUnique(mapRefs, v.key);
    CanonicalWhenUnique(g.briefRefs, v.key);
    CanonicalWhenUnique(Map(ArtifactRefOf, artifacts), v.key);
    BindingRefs(v, artifacts);
    ReportBindingsBound(v, artifacts, claims);
    SortTwice(g.sheetRefs, v.key);
    SortTwice(mapRefs, v.key);
    SortTwice(g.briefRefs, v.key);
  }

  /** The input records passed their own validators. */
  predicate ValidInputs(g: Generation, mapRefs: seq<ArtifactRef>, artifacts: seq<Artifact>) {
    && ValidRefs(g.sheetRefs) && ValidRefs(mapRefs) && ValidRefs(g.briefRefs)
    && forall a | a in artifacts :: a.ref.Valid() && forall u | u in a.usages :: ValidUsage(u)
  }

  lemma SortKeepsValid(refs: seq<ArtifactRef>, key: ArtifactRef -> string)
    ensures ValidRefs(SortBy(refs, key)) <==> ValidRefs(refs)
  {
    SortPermutes(refs, key);
  }

  lemma BindingsValid(v: Validator, artifacts: seq<Artifact>)
    requires forall a | a in artifacts :: a.ref.Valid() && forall u | u in a.usages :: ValidUsage(u)
    ensures forall b | b in SortBy(Map(ToBinding(v), artifacts), BindingKey(v)) :: ValidBinding(b)
  {
    hide ValidUsage, ArtifactRef.Valid, SortUsages;
    var bindings := Map(ToBinding(v), artifacts);
    SortPermutes(bindings, BindingKey(v));
    forall b | b in bindings ensures ValidBinding(b) {
      var i :| 0 <= i < |bindings| && bindings[i] == b;
      SortUsagesMembers(artifacts[i].usages);
    }
  }

  /** A passed report that is sealed as a payload, read back and verified again holds. */
  lemma SealedReportVerifies(v: Validator, g: Generation, mapRefs: seq<ArtifactRef>, artifacts: seq<Artifact>,
                             claims: Claims)
    requires v.Digests() && ExactCoverage(g, mapRefs, artifacts) && AllClean(v, artifacts, claims)
    requires ValidInputs(g, mapRefs, artifacts) && Unique(g.briefRefs)
    ensures var read := ReportFromPayload(ReportPayload(ReportOf(v, g, mapRefs, artifacts, [])));
            read.Some? && read.value.passed && BindingIsValid(v, read.value)
  {
    hide ReportPayload, ReportFromPayload, BindingIsValid, ValidRefs, ValidUsage, ArtifactRef.Valid, Matches, AllClean;
    var report := ReportOf(v, g, mapRefs, artifacts, []);
    PassedReportVerifies(v, g, mapRefs, artifacts, claims);
    SortKeepsValid(g.sheetRefs, v.key);
    SortKeepsValid(mapRefs, v.key);
    SortKeepsValid(g.briefRefs, v.key);
    SortKeepsValid(Map(ArtifactRefOf, artifacts), v.key);
    assert ValidRefs(Map(ArtifactRefOf, artifacts)) by { ArtifactRefsValid(artifacts); }
    BindingsValid(v, artifacts);
    ReportRoundTrip(report);
  }

  lemma ArtifactRefsValid(artifacts: seq<Artifact>)
    requires forall a | a in artifacts :: a.ref.Valid()
    ensures ValidRefs(Map(ArtifactRefOf, artifacts))
  {
    var refs := Map(ArtifactRefOf, artifacts);
    forall r | r in refs ensures r.Valid() {
      var i :| 0 <= i < |refs| && refs[i] == r;
      assert artifacts[i] in artifacts;
    }
  }

  // ------------------------------------------------------- a shared brief reference

  function NamedRef(name: string): ArtifactRef {
    ArtifactRef(name, 1, seq(64, i requires 0 <= i < 64 => '0'))
  }

  /** Two cases whose fact maps bind the same blinded brief. */
  function SharedBrief(): Generation {
    var brief := NamedRef("brief");
    Generation(
      [SourceSheet("a", []), SourceSheet("b", [])], [NamedRef("sheet-a"), NamedRef("sheet-b")],
      [FactMap("a", NamedRef("sheet-a"), brief, []), FactMap("b", NamedRef("sheet-b"), brief, [])], [brief, brief])
  }

  function SharedBriefMaps(): seq<ArtifactRef> {
    [NamedRef("map-a"), NamedRef("map-b")]
  }

  function EmptyNote(): Artifact {
    Artifact(NamedRef("note"), JNull, [])
  }

  lemma UniquePair(r: ArtifactRef, q: ArtifactRef)
    ensures Unique([r, q]) <==> r != q
  {
    assert Elements([r, q]) == {r, q};
  }

  lemma SharedBriefCovers()
    ensures ExactCoverage(SharedBrief(), SharedBriefMaps(), [EmptyNote()])
  {
    var g := SharedBrief();
    assert |"sheet-a"| == |"sheet-b"| == 7 && "sheet-a"[6] != "sheet-b"[6];
    assert |"map-a"| == |"map-b"| == 5 && "map-a"[4] != "map-b"[4];
    assert "a" != "b" by { assert "a"[0] != "b"[0]; }
    UniquePair(NamedRef("sheet-a"), NamedRef("sheet-b"));
    UniquePair(NamedRef("map-a"), NamedRef("map-b"));
    assert Map(ArtifactRefOf, [EmptyNote()]) == [NamedRef("note")];
    assert Elements([NamedRef("note")]) == {NamedRef("note")};
    var first := g.sheets[..1];
    assert first == [SourceSheet("a", [])];
    assert ExpectedRef(first, g.sheetRefs, "a") == Some(g.sheetRefs[0]);
    assert ExpectedRef(g.sheets, g.sheetRefs, "a") == ExpectedRef(first, g.sheetRefs, "a");
    assert ExpectedRef(g.sheets, g.sheetRefs, "b") == Some(g.sheetRefs[1]);
    assert Matches(g, 0) && Matches(g, 1);
  }

  lemma EmptyNoteIsClean(v: Validator)
    ensures AllClean(v, [EmptyNote()], map[])
  {
    var a := EmptyNote();
    assert |"note"| != |METHOD_RECOMMENDATION|;
    assert LeavesByPointer(a.payload) == map[];
    var c := v.ChecksFor("note");
    assert ExactlyClaimed(c, map[], [], map[]);
    OrdinaryPassesExactly(c, map[], [], map[]);
  }

  lemma NoClaimsAreCurrent()
    ensures AreCurrent(SharedBrief(), map[])
  {
    var sheets := SharedBrief().sheets;
    var rest := sheets[1..];
    assert rest == [SourceSheet("b", [])] && rest[1..] == [];
    forall id ensures Occurrences(sheets, id) == 0 {
      assert CountClaims([], id) == 0;
      assert Occurrences(rest[1..], id) == 0;
      assert Occurrences(rest, id) == 0;
    }
  }

  /** Under every validator this valid generation passes with a report that does not
      verify: the coverage check lets the shared brief through. */
  lemma SharedBriefDoesNotVerify(v: Validator)
    requires v.Digests()
    ensures var g, maps, artifacts := SharedBrief(), SharedBriefMaps(), [EmptyNote()];
            && ValidInputs(g, maps, artifacts) && ExactCoverage(g, maps, artifacts)
            && AreCurrent(g, map[]) && AllClean(v, artifacts, map[])
            && !BindingIsValid(v, ReportOf(v, g, maps, artifacts, RecordedFindings(v, artifacts, map[])))
  {
    hide BindingIsValid, ReportOf, ExactCoverage, AllClean, AreCurrent, RecordedFindings, Unique;
    var g, maps, artifacts := SharedBrief(), SharedBriefMaps(), [EmptyNote()];
    SharedBriefCovers();
    EmptyNoteIsClean(v);
    NoClaimsAreCurrent();
    NothingRecorded(v, artifacts, map[]);
    PassedReportVerifies(v, g, maps, artifacts, map[]);
    UniquePair(NamedRef("brief"), NamedRef("brief"));
  }
}
