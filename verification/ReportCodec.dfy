/** Sealed claim-integrity reports and their payloads
    (src/envresearch/benchmarks/claim_report.py lines 15-47, 144-231, 276-335). */
module ReportCodec {
  import opened Options
  import opened Ordering
  import opened Text
  import opened Artifacts
  import opened JsonPointers
  import opened ClaimIntegrity

  datatype CitationFinding = CitationFinding(code: string, artifactRef: ArtifactRef, pointer: string,
                                             claimId: Option<string>, detail: string)

  datatype LeafHash = LeafHash(pointer: string, digest: string)

  datatype Binding = Binding(artifactRef: ArtifactRef, leafHashes: seq<LeafHash>, usages: seq<ClaimUsage>)

  datatype Report = Report(
    findings: seq<CitationFinding>,
    passed: bool,
    version: string,
    sourceRefs: seq<ArtifactRef>,
    mapRefs: seq<ArtifactRef>,
    briefRefs: seq<ArtifactRef>,
    artifactRefs: seq<ArtifactRef>,
    bindings: seq<Binding>,
    digest: string)

  // ------------------------------------------------ what the records' fields accept

  predicate LowerAlphanumeric(c: char) {
    'a' <= c <= 'z' || IsDigit(c)
  }

  /** Lowercase alphanumeric words joined by single dashes, starting with a letter. */
  predicate CanonicalId(s: string) {
    && s != [] && 'a' <= s[0] <= 'z'
    && forall part | part in Split(s, '-') :: part != [] && forall i | 0 <= i < |part| :: LowerAlphanumeric(part[i])
  }

  predicate ValidUsage(u: ClaimUsage) {
    CanonicalId(u.claimId) && HexDigest(u.statementHash) && CanonicalPointer(u.pointer)
  }

  predicate ValidBinding(b: Binding) {
    b.artifactRef.Valid() && forall u | u in b.usages :: ValidUsage(u)
  }

  predicate ValidRefs(refs: seq<ArtifactRef>) {
    forall r | r in refs :: r.Valid()
  }

  /** Every record inside the report passed its own validators. */
  predicate WellFormed(r: Report) {
    && (forall f | f in r.findings :: f.artifactRef.Valid())
    && ValidRefs(r.sourceRefs) && ValidRefs(r.mapRefs) && ValidRefs(r.briefRefs) && ValidRefs(r.artifactRefs)
    && forall b | b in r.bindings :: ValidBinding(b)
  }

  // ------------------------------------------------------------------- serializing

  function EncodeRef(r: ArtifactRef): Json {
    JObject(map["artifact_id" := JString(r.artifactId),
                "artifact_version" := JNumber(r.version as real),
                "content_hash" := JString(r.contentHash)])
  }

  function EncodeUsage(u: ClaimUsage): Json {
    JObject(map["claim_id" := JString(u.claimId),
                "statement_sha256" := JString(u.statementHash),
                "json_pointer" := JString(u.pointer)])
  }

  function EncodeLeaf(l: LeafHash): Json {
    JArray([JString(l.pointer), JString(l.digest)])
  }

  function EncodeBinding(b: Binding): Json {
    JObject(map["artifact_ref" := EncodeRef(b.artifactRef),
                "payload_leaf_hashes" := JArray(Map(EncodeLeaf, b.leafHashes)),
                "usages" := JArray(Map(EncodeUsage, b.usages))])
  }

  function EncodeFinding(f: CitationFinding): Json {
    JObject(map["code" := JString(f.code),
                "artifact_ref" := EncodeRef(f.artifactRef),
                "json_pointer" := JString(f.pointer),
                "claim_id" := if f.claimId.Some? then JString(f.claimId.value) else JNull,
                "detail" := JString(f.detail)])
  }

  /** report_payload. */
  function ReportPayload(r: Report): Json {
    JObject(map["findings" := JArray(Map(EncodeFinding, r.findings)),
                "passed" := JBool(r.passed),
                "validator_version" := JString(r.version),
                "source_sheet_refs" := JArray(Map(EncodeRef, r.sourceRefs)),
                "claim_fact_map_refs" := JArray(Map(EncodeRef, r.mapRefs)),
                "blinded_brief_refs" := JArray(Map(EncodeRef, r.briefRefs)),
                "accepted_artifact_refs" := JArray(Map(EncodeRef, r.artifactRefs)),
                "accepted_artifact_bindings" := JArray(Map(EncodeBinding, r.bindings)),
                "binding_sha256" := JString(r.digest)])
  }

  // ----------------------------------------------------------------- reconstructing

  function Get(v: Json, key: string): Json
    requires v.JObject?
  {
    if key in v.fields then v.fields[key] else JNull
  }

  /** ArtifactRef.model_validate: exactly the three fields, each valid. */
  function DecodeRef(v: Json): Option<ArtifactRef> {
    if !v.JObject? || v.fields.Keys != {"artifact_id", "artifact_version", "content_hash"} then None
    else
      var id, version, hash := Get(v, "artifact_id"), Get(v, "artifact_version"), Get(v, "content_hash");
      if !id.JString? || !version.JNumber? || !hash.JString? || version.r.Floor as real != version.r then None
      else
        var ref := ArtifactRef(id.s, version.r.Floor, hash.s);
        if ref.Valid() then Some(ref) else None
  }

  function DecodeUsage(v: Json): Option<ClaimUsage> {
    if !v.JObject? || v.fields.Keys != {"claim_id", "statement_sha256", "json_pointer"} then None
    else
      var id, hash, pointer := Get(v, "claim_id"), Get(v, "statement_sha256"), Get(v, "json_pointer");
      if !id.JString? || !hash.JString? || !pointer.JString? then None
      else
        var usage := ClaimUsage(id.s, pointer.s, hash.s);
        if ValidUsage(usage) then Some(usage) else None
  }

  function DecodeLeaf(v: Json): Option<LeafHash> {
    if v.JArray? && |v.items| == 2 && v.items[0].JString? && v.items[1].JString?
    then Some(LeafHash(v.items[0].s, v.items[1].s)) else None
  }

  /** Every item reconstructed, or nothing. */
  function DecodeAll<T>(items: seq<Json>, decode: Json -> Option<T>): Option<seq<T>> {
    if items == [] then Some([])
    else
      var first, rest := decode(items[0]), DecodeAll(items[1..], decode);
      if first.Some? && rest.Some? then Some([first.value] + rest.value) else None
  }

  function DecodeList<T>(v: Json, decode: Json -> Option<T>): Option<seq<T>> {
    if v.JArray? then DecodeAll(v.items, decode) else None
  }

  function DecodeBinding(v: Json): Option<Binding> {
    if !v.JObject? then None
    else
      var ref := DecodeRef(Get(v, "artifact_ref"));
      var leaves := DecodeList(Get(v, "payload_leaf_hashes"), DecodeLeaf);
      var usages := DecodeList(Get(v, "usages"), DecodeUsage);
      if ref.Some? && leaves.Some? && usages.Some? then Some(Binding(ref.value, leaves.value, usages.value)) else None
  }

  function DecodeFinding(v: Json): Option<CitationFinding> {
    if !v.JObject? then None
    else
      var ref := DecodeRef(Get(v, "artifact_ref"));
      var code, pointer := Get(v, "code"), Get(v, "json_pointer");
      var claimId, detail := Get(v, "claim_id"), Get(v, "detail");
      if !code.JString? || !pointer.JString? || !detail.JString? || ref.None? then None
      else if !(claimId.JNull? || claimId.JString?) then None
      else
        var claim := if claimId.JString? then Some(claimId.s) else None;
        Some(CitationFinding(code.s, ref.value, pointer.s, claim, detail.s))
  }

  /** report_from_payload. */
  function ReportFromPayload(v: Json): Option<Report> {
    if !v.JObject? || v.fields.Keys != {
         "findings", "passed", "validator_version", "source_sheet_refs", "claim_fact_map_refs", "blinded_brief_refs",
         "accepted_artifact_refs", "accepted_artifact_bindings", "binding_sha256"}
    then None
    else
      var sources := DecodeList(Get(v, "source_sheet_refs"), DecodeRef);
      var maps := DecodeList(Get(v, "claim_fact_map_refs"), DecodeRef);
      var briefs := DecodeList(Get(v, "blinded_brief_refs"), DecodeRef);
      var artifacts := DecodeList(Get(v, "accepted_artifact_refs"), DecodeRef);
      var bindings := DecodeList(Get(v, "accepted_artifact_bindings"), DecodeBinding);
      var findings := DecodeList(Get(v, "findings"), DecodeFinding);
      var passed, version, digest := Get(v, "passed"), Get(v, "validator_version"), Get(v, "binding_sha256");
      if sources.None? || maps.None? || briefs.None? || artifacts.None? || bindings.None? || findings.None?
         || !passed.JBool? || !version.JString? || !digest.JString?
      then None
      else Some(Report(findings.value, passed.b, version.s, sources.value, maps.value, briefs.value, artifacts.value,
                       bindings.value, digest.s))
  }

  // --------------------------------------------------------------------- round trip

  lemma {:induction false} DecodeAllEncoded<T>(xs: seq<T>, encode: T -> Json, decode: Json -> Option<T>)
    requires forall x | x in xs :: decode(encode(x)) == Some(x)
    ensures DecodeAll(Map(encode, xs), decode) == Some(xs)
  {
    if xs != [] {
      assert Map(encode, xs)[1..] == Map(encode, xs[1..]);
      DecodeAllEncoded(xs[1..], encode, decode);
      assert xs == [xs[0]] + xs[1..];
    }
  }

  lemma RefRoundTrip(r: ArtifactRef)
    requires r.Valid()
    ensures DecodeRef(EncodeRef(r)) == Some(r)
  {
    assert (r.version as real).Floor == r.version;
  }

  lemma UsageRoundTrip(u: ClaimUsage)
    requires ValidUsage(u)
    ensures DecodeUsage(EncodeUsage(u)) == Some(u)
  {
    hide ValidUsage;
  }

  lemma RefsRoundTrip(refs: seq<ArtifactRef>)
    requires ValidRefs(refs)
    ensures DecodeAll(Map(EncodeRef, refs), DecodeRef) == Some(refs)
  {
    hide EncodeRef, DecodeRef, ArtifactRef.Valid;
    forall r | r in refs ensures DecodeRef(EncodeRef(r)) == Some(r) {
      RefRoundTrip(r);
    }
    DecodeAllEncoded(refs, EncodeRef, DecodeRef);
  }

  lemma BindingRoundTrip(b: Binding)
    requires ValidBinding(b)
    ensures DecodeBinding(EncodeBinding(b)) == Some(b)
  {
    hide EncodeRef, DecodeRef, EncodeUsage, DecodeUsage, ValidUsage, DecodeAll;
    RefRoundTrip(b.artifactRef);
    DecodeAllEncoded(b.leafHashes, EncodeLeaf, DecodeLeaf);
    forall u | u in b.usages ensures DecodeUsage(EncodeUsage(u)) == Some(u) {
      UsageRoundTrip(u);
    }
    DecodeAllEncoded(b.usages, EncodeUsage, DecodeUsage);
  }

  lemma FindingRoundTrip(f: CitationFinding)
    requires f.artifactRef.Valid()
    ensures DecodeFinding(EncodeFinding(f)) == Some(f)
  {
    hide EncodeRef, DecodeRef;
    RefRoundTrip(f.artifactRef);
  }

  lemma BindingsRoundTrip(bindings: seq<Binding>)
    requires forall b | b in bindings :: ValidBinding(b)
    ensures DecodeAll(Map(EncodeBinding, bindings), DecodeBinding) == Some(bindings)
  {
    hide EncodeBinding, DecodeBinding, ValidBinding;
    forall b | b in bindings ensures DecodeBinding(EncodeBinding(b)) == Some(b) {
      BindingRoundTrip(b);
    }
    DecodeAllEncoded(bindings, EncodeBinding, DecodeBinding);
  }

  lemma FindingsRoundTrip(findings: seq<CitationFinding>)
    requires forall f | f in findings :: f.artifactRef.Valid()
    ensures DecodeAll(Map(EncodeFinding, findings), DecodeFinding) == Some(findings)
  {
    hide EncodeFinding, DecodeFinding, ArtifactRef.Valid;
    forall f | f in findings ensures DecodeFinding(EncodeFinding(f)) == Some(f) {
      FindingRoundTrip(f);
    }
    DecodeAllEncoded(findings, EncodeFinding, DecodeFinding);
  }

  /** Decoding an encoded report gives back the same report. */
  lemma ReportRoundTrip(r: Report)
    requires WellFormed(r)
    ensures ReportFromPayload(ReportPayload(r)) == Some(r)
  {
    hide DecodeAll, EncodeRef, DecodeRef, EncodeBinding, DecodeBinding, EncodeFinding, DecodeFinding, ValidRefs,
      ValidBinding, ArtifactRef.Valid;
    RefsRoundTrip(r.sourceRefs);
    RefsRoundTrip(r.mapRefs);
    RefsRoundTrip(r.briefRefs);
    RefsRoundTrip(r.artifactRefs);
    BindingsRoundTrip(r.bindings);
    FindingsRoundTrip(r.findings);
  }

  /** Different reports are sealed as different payloads. */
  lemma PayloadInjective(r: Report, q: Report)
    requires WellFormed(r) && WellFormed(q) && ReportPayload(r) == ReportPayload(q)
    ensures r == q
  {
    hide ReportPayload, ReportFromPayload;
    ReportRoundTrip(r);
    ReportRoundTrip(q);
  }

  lemma {:induction false} DecodeAllHolds<T>(items: seq<Json>, decode: Json -> Option<T>, valid: T -> bool)
    requires forall v | decode(v).Some? :: valid(decode(v).value)
    requires DecodeAll(items, decode).Some?
    ensures forall x | x in DecodeAll(items, decode).value :: valid(x)
  {
    if items != [] {
      DecodeAllHolds(items[1..], decode, valid);
    }
  }

  lemma RefsDecodeValid(v: Json)
    requires DecodeList(v, DecodeRef).Some?
    ensures ValidRefs(DecodeList(v, DecodeRef).value)
  {
    DecodeAllHolds(v.items, DecodeRef, (r: ArtifactRef) => r.Valid());
  }

  lemma BindingDecodesValid(v: Json)
    requires DecodeBinding(v).Some?
    ensures ValidBinding(DecodeBinding(v).value)
  {
    hide ValidUsage, ArtifactRef.Valid, DecodeAll;
    DecodeAllHolds(Get(v, "usages").items, DecodeUsage, u => ValidUsage(u));
  }

  lemma FindingDecodesValid(v: Json)
    requires DecodeFinding(v).Some?
    ensures DecodeFinding(v).value.artifactRef.Valid()
  {
    hide ArtifactRef.Valid;
  }

  /** Only well-formed reports are reconstructed, from any payload at all; so sealing
      such a report again loses nothing. */
  lemma ReconstructedIsWellFormed(v: Json)
    requires ReportFromPayload(v).Some?
    ensures WellFormed(ReportFromPayload(v).value)
    ensures ReportFromPayload(ReportPayload(ReportFromPayload(v).value)) == ReportFromPayload(v)
  {
    hide DecodeAll, DecodeRef, DecodeBinding, ValidRefs, ValidBinding, ArtifactRef.Valid, ReportPayload;
    var r := ReportFromPayload(v).value;
    RefsDecodeValid(Get(v, "source_sheet_refs"));
    RefsDecodeValid(Get(v, "claim_fact_map_refs"));
    RefsDecodeValid(Get(v, "blinded_brief_refs"));
    RefsDecodeValid(Get(v, "accepted_artifact_refs"));
    forall b | DecodeBinding(b).Some? ensures ValidBinding(DecodeBinding(b).value) {
      BindingDecodesValid(b);
    }
    DecodeAllHolds(Get(v, "accepted_artifact_bindings").items, DecodeBinding, b => ValidBinding(b));
    forall f | DecodeFinding(f).Some? ensures DecodeFinding(f).value.artifactRef.Valid() {
      FindingDecodesValid(f);
    }
    DecodeAllHolds(Get(v, "findings").items, DecodeFinding, (f: CitationFinding) => f.artifactRef.Valid());
    ReportRoundTrip(r);
  }
}
