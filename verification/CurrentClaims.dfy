/** Which source claims are current and which blinded fact each one maps to
    (src/envresearch/benchmarks/claim_integrity.py lines 143-186). */
module CurrentClaims {
  import opened Options
  import opened Ordering
  import opened Artifacts
  import opened ClaimIntegrity

  datatype SourceSheet = SourceSheet(caseId: string, claims: seq<Claim>)

  datatype Entry = Entry(claimId: string, factId: string)

  datatype FactMap = FactMap(caseId: string, sourceRef: ArtifactRef, briefRef: ArtifactRef, entries: seq<Entry>)

  // ------------------------------------------------------------- expected sources

  /** The reference of the last sheet for a case. */
  function ExpectedRef(sheets: seq<SourceSheet>, refs: seq<ArtifactRef>, caseId: string): Option<ArtifactRef> {
    if sheets == [] then None
    else if sheets[|sheets| - 1].caseId == caseId && |sheets| <= |refs| then Some(refs[|sheets| - 1])
    else ExpectedRef(sheets[..|sheets| - 1], refs, caseId)
  }

  method ExpectedRefs(sheets: seq<SourceSheet>, refs: seq<ArtifactRef>) returns (expected: map<string, ArtifactRef>)
    ensures forall c :: (if c in expected then Some(expected[c]) else None) == ExpectedRef(sheets, refs, c)
  {
    expected := map[];
    for i := 0 to |sheets|
      invariant forall c :: (if c in expected then Some(expected[c]) else None) == ExpectedRef(sheets[..i], refs, c)
    {
      assert sheets[..i + 1][..i] == sheets[..i];
      if i < |refs| {
        expected := expected[sheets[i].caseId := refs[i]];
      }
    }
    assert sheets[..|sheets|] == sheets;
  }

  // ------------------------------------------------------------------ mapped facts

  /** {entry.claim_id: entry.fact_id}. */
  function EntryMap(entries: seq<Entry>): map<string, string> {
    if entries == [] then map[]
    else EntryMap(entries[..|entries| - 1])[entries[|entries| - 1].claimId := entries[|entries| - 1].factId]
  }

  method BuildEntries(entries: seq<Entry>) returns (m: map<string, string>)
    ensures m == EntryMap(entries)
  {
    m := map[];
    for i := 0 to |entries|
      invariant m == EntryMap(entries[..i])
    {
      assert entries[..i + 1][..i] == entries[..i];
      m := m[entries[i].claimId := entries[i].factId];
    }
    assert entries[..|entries|] == entries;
  }

  /** The accepted generation a map is checked against. */
  datatype Generation = Generation(sheets: seq<SourceSheet>, sheetRefs: seq<ArtifactRef>, maps: seq<FactMap>,
                                   briefRefs: seq<ArtifactRef>)

  predicate Matches(g: Generation, i: nat)
    requires i < |g.maps| <= |g.briefRefs|
  {
    ExpectedRef(g.sheets, g.sheetRefs, g.maps[i].caseId) == Some(g.maps[i].sourceRef) &&
      g.maps[i].briefRef == g.briefRefs[i]
  }

  /** The i-th map is the case's only map. */
  ghost predicate Sole(maps: seq<FactMap>, i: nat, caseId: string) {
    i < |maps| && maps[i].caseId == caseId && forall j | 0 <= j < |maps| && j != i :: maps[j].caseId != caseId
  }

  /** The claim-to-fact map in force for a case: its only map's entries, if that map
      binds the current source sheet and brief. */
  ghost predicate InForce(g: Generation, caseId: string, claimId: string, factId: string)
    requires |g.maps| <= |g.briefRefs|
  {
    exists i: nat | i < |g.maps| ::
      && Sole(g.maps, i, caseId) && Matches(g, i)
      && claimId in EntryMap(g.maps[i].entries) && EntryMap(g.maps[i].entries)[claimId] == factId
  }

  /** What a map contributes when it is the first of its case. */
  function Contribution(g: Generation, i: nat): map<string, string>
    requires i < |g.maps| <= |g.briefRefs|
  {
    if Matches(g, i) then EntryMap(g.maps[i].entries) else map[]
  }

  ghost predicate First(maps: seq<FactMap>, i: nat, upTo: nat) {
    i < upTo <= |maps| && forall j | 0 <= j < i :: maps[j].caseId != maps[i].caseId
  }

  /** Each case seen so far carries the contribution of its first map. */
  ghost predicate Collected(g: Generation, mapped: map<string, map<string, string>>, i: nat)
    requires i <= |g.maps| <= |g.briefRefs|
  {
    && (forall j | 0 <= j < i :: g.maps[j].caseId in mapped)
    && (forall c | c in mapped :: exists j: nat ::
          First(g.maps, j, i) && g.maps[j].caseId == c && mapped[c] == Contribution(g, j))
  }

  ghost predicate Repeats(maps: seq<FactMap>, i: nat, c: string)
    requires i <= |maps|
  {
    exists j, k | 0 <= j < k < i :: maps[j].caseId == c == maps[k].caseId
  }

  lemma CollectedNext(g: Generation, mapped: map<string, map<string, string>>, i: nat)
    requires i < |g.maps| <= |g.briefRefs| && Collected(g, mapped, i)
    ensures var c := g.maps[i].caseId;
            Collected(g, if c in mapped then mapped else mapped[c := Contribution(g, i)], i + 1)
  {
    hide Contribution;
    var caseId := g.maps[i].caseId;
    var after := if caseId in mapped then mapped else mapped[caseId := Contribution(g, i)];
    forall c | c in after
      ensures exists j: nat :: First(g.maps, j, i + 1) && g.maps[j].caseId == c && after[c] == Contribution(g, j)
    {
      if c in mapped {
        var j: nat :| First(g.maps, j, i) && g.maps[j].caseId == c && mapped[c] == Contribution(g, j);
        assert First(g.maps, j, i + 1);
      } else {
        assert First(g.maps, i, i + 1);
      }
    }
  }

  lemma RepeatsNext(g: Generation, mapped: map<string, map<string, string>>, i: nat, c: string)
    requires i < |g.maps| <= |g.briefRefs| && Collected(g, mapped, i)
    ensures Repeats(g.maps, i + 1, c) <==> Repeats(g.maps, i, c) || (c == g.maps[i].caseId && c in mapped)
  {
    hide Contribution;
    if c == g.maps[i].caseId && c in mapped {
      var j: nat :| First(g.maps, j, i) && g.maps[j].caseId == c && mapped[c] == Contribution(g, j);
      assert g.maps[j].caseId == c == g.maps[i].caseId;
    }
  }

  /** The loop over fact maps, and the cases it met twice. */
  method CollectMaps(g: Generation) returns (mapped: map<string, map<string, string>>, duplicates: set<string>)
    requires |g.maps| <= |g.briefRefs|
    ensures Collected(g, mapped, |g.maps|)
    ensures forall c :: c in duplicates <==> Repeats(g.maps, |g.maps|, c)
  {
    hide ExpectedRef, EntryMap, Collected, Repeats;
    var expected := ExpectedRefs(g.sheets, g.sheetRefs);
    mapped, duplicates := map[], {};
    assert Collected(g, mapped, 0) by { CollectedNothing(g); }
    forall c ensures !Repeats(g.maps, 0, c) { RepeatsNothing(g.maps, c); }
    for i := 0 to |g.maps|
      invariant Collected(g, mapped, i)
      invariant forall c :: c in duplicates <==> Repeats(g.maps, i, c)
    {
      var factMap := g.maps[i];
      CollectedNext(g, mapped, i);
      forall c
        ensures Repeats(g.maps, i + 1, c) <==> Repeats(g.maps, i, c) || (c == factMap.caseId && c in mapped)
      {
        RepeatsNext(g, mapped, i, c);
      }
      if factMap.caseId in mapped {
        duplicates := duplicates + {factMap.caseId};
        continue;
      }
      var sourceMatches := factMap.caseId in expected && factMap.sourceRef == expected[factMap.caseId];
      var briefMatches := factMap.briefRef == g.briefRefs[i];
      if !sourceMatches || !briefMatches {
        mapped := mapped[factMap.caseId := map[]];
        continue;
      }
      var entries := BuildEntries(factMap.entries);
      mapped := mapped[factMap.caseId := entries];
    }
  }

  lemma CollectedNothing(g: Generation)
    requires |g.maps| <= |g.briefRefs|
    ensures Collected(g, map[], 0)
  {
  }

  lemma RepeatsNothing(maps: seq<FactMap>, c: string)
    ensures !Repeats(maps, 0, c)
  {
  }

  /** The mapped facts of every case; a case with several maps keeps none. */
  method MappedFacts(g: Generation) returns (mapped: map<string, map<string, string>>)
    requires |g.maps| <= |g.briefRefs|
    ensures forall c, k, f :: (c in mapped && k in mapped[c] && mapped[c][k] == f) <==> InForce(g, c, k, f)
  {
    hide Collected, Repeats, InForce;
    var duplicates;
    mapped, duplicates := CollectMaps(g);
    var rest := duplicates;
    ghost var collected := mapped;
    while rest != {}
      invariant rest <= duplicates
      invariant mapped.Keys == collected.Keys + (duplicates - rest)
      invariant forall c | c in mapped :: mapped[c] == if c in duplicates - rest then map[] else collected[c]
    {
      var c :| c in rest;
      mapped := mapped[c := map[]];
      rest := rest - {c};
    }
    forall c, k, f ensures (c in mapped && k in mapped[c] && mapped[c][k] == f) <==> InForce(g, c, k, f) {
      MappedIsInForce(g, collected, duplicates, c, k, f);
    }
  }

  lemma MappedIsInForce(g: Generation, collected: map<string, map<string, string>>, duplicates: set<string>,
                        c: string, k: string, f: string)
    requires |g.maps| <= |g.briefRefs| && Collected(g, collected, |g.maps|)
    requires forall c :: c in duplicates <==> Repeats(g.maps, |g.maps|, c)
    ensures InForce(g, c, k, f) <==> c in collected && c !in duplicates && k in collected[c] && collected[c][k] == f
  {
    hide Matches, EntryMap;
    if InForce(g, c, k, f) {
      var i: nat :| i < |g.maps| && Sole(g.maps, i, c) && Matches(g, i)
        && k in EntryMap(g.maps[i].entries) && EntryMap(g.maps[i].entries)[k] == f;
      var j: nat :| First(g.maps, j, |g.maps|) && g.maps[j].caseId == c && collected[c] == Contribution(g, j);
      assert i == j;
    }
    if c in collected && c !in duplicates && k in collected[c] && collected[c][k] == f {
      var j: nat :| First(g.maps, j, |g.maps|) && g.maps[j].caseId == c && collected[c] == Contribution(g, j);
      assert Sole(g.maps, j, c);
    }
  }

  // ------------------------------------------------------------------ the dictionary

  /** One claim as the loops meet it. */
  datatype Seen = Seen(caseId: string, claim: Claim)

  function CountSeen(seen: seq<Seen>, id: string): nat {
    if seen == [] then 0
    else CountSeen(seen[..|seen| - 1], id) + (if seen[|seen| - 1].claim.claimId == id then 1 else 0)
  }

  function CountClaims(claims: seq<Claim>, id: string): nat {
    if claims == [] then 0 else (if claims[0].claimId == id then 1 else 0) + CountClaims(claims[1..], id)
  }

  /** How often a claim id occurs over all source sheets. */
  function Occurrences(sheets: seq<SourceSheet>, id: string): nat {
    if sheets == [] then 0 else CountClaims(sheets[0].claims, id) + Occurrences(sheets[1..], id)
  }

  lemma {:induction false} CountInserted(x: Claim, xs: seq<Claim>, key: Claim -> string, id: string)
    ensures CountClaims(Insert(x, xs, key), id) == (if x.claimId == id then 1 else 0) + CountClaims(xs, id)
  {
    assert ([x] + xs)[1..] == xs;
    if xs != [] && !Below(key(x), key(xs[0])) {
      CountInserted(x, xs[1..], key, id);
      assert ([xs[0]] + Insert(x, xs[1..], key))[1..] == Insert(x, xs[1..], key);
    }
  }

  lemma {:induction false} CountSorted(xs: seq<Claim>, key: Claim -> string, id: string)
    ensures CountClaims(SortBy(xs, key), id) == CountClaims(xs, id)
  {
    if xs != [] {
      CountSorted(xs[1..], key, id);
      CountInserted(xs[0], SortBy(xs[1..], key), key, id);
    }
  }

  lemma {:induction false} OccurrencesInserted(x: SourceSheet, xs: seq<SourceSheet>, key: SourceSheet -> string,
                                               id: string)
    ensures Occurrences(Insert(x, xs, key), id) == CountClaims(x.claims, id) + Occurrences(xs, id)
  {
    assert ([x] + xs)[1..] == xs;
    if xs != [] && !Below(key(x), key(xs[0])) {
      OccurrencesInserted(x, xs[1..], key, id);
      assert ([xs[0]] + Insert(x, xs[1..], key))[1..] == Insert(x, xs[1..], key);
    }
  }

  lemma {:induction false} OccurrencesSorted(xs: seq<SourceSheet>, key: SourceSheet -> string, id: string)
    ensures Occurrences(SortBy(xs, key), id) == Occurrences(xs, id)
  {
    if xs != [] {
      OccurrencesSorted(xs[1..], key, id);
      OccurrencesInserted(xs[0], SortBy(xs[1..], key), key, id);
    }
  }

  lemma {:induction false} OccurrencesSnoc(sheets: seq<SourceSheet>, last: SourceSheet, id: string)
    ensures Occurrences(sheets + [last], id) == Occurrences(sheets, id) + CountClaims(last.claims, id)
  {
    if sheets == [] {
      assert [last][1..] == [] && sheets + [last] == [last];
    } else {
      OccurrencesSnoc(sheets[1..], last, id);
      assert (sheets + [last])[1..] == sheets[1..] + [last];
    }
  }

  lemma {:induction false} CountSnoc(claims: seq<Claim>, last: Claim, id: string)
    ensures CountClaims(claims + [last], id) == CountClaims(claims, id) + (if last.claimId == id then 1 else 0)
  {
    if claims == [] {
      assert [last][1..] == [] && claims + [last] == [last];
    } else {
      CountSnoc(claims[1..], last, id);
      assert (claims + [last])[1..] == claims[1..] + [last];
    }
  }

  function FactOf(mapped: map<string, map<string, string>>, caseId: string, claimId: string): Option<string> {
    if caseId in mapped && claimId in mapped[caseId] then Some(mapped[caseId][claimId]) else None
  }

  /** The dictionary after a run of claims: a repeated id is never mapped, a single
      one carries its own case's fact. */
  ghost predicate Tracks(claims: Claims, seen: seq<Seen>, mapped: map<string, map<string, string>>) {
    && (forall id :: id in claims <==> CountSeen(seen, id) > 0)
    && (forall id | id in claims && CountSeen(seen, id) > 1 :: claims[id].factId == None)
    && (forall s | s in seen && CountSeen(seen, s.claim.claimId) == 1 ::
         s.claim.claimId in claims &&
           claims[s.claim.claimId] == CurrentClaim(s.claim, FactOf(mapped, s.caseId, s.claim.claimId)))
  }

  lemma {:induction false} SeenIsCounted(seen: seq<Seen>, s: Seen)
    requires s in seen
    ensures CountSeen(seen, s.claim.claimId) > 0
  {
    if s != seen[|seen| - 1] {
      assert s in seen[..|seen| - 1];
      SeenIsCounted(seen[..|seen| - 1], s);
    }
  }

  lemma {:induction false} CountedIsSeen(seen: seq<Seen>, id: string)
    requires CountSeen(seen, id) > 0
    ensures exists s | s in seen :: s.claim.claimId == id
  {
    if seen[|seen| - 1].claim.claimId != id {
      CountedIsSeen(seen[..|seen| - 1], id);
    }
  }

  lemma TrackNext(claims: Claims, seen: seq<Seen>, mapped: map<string, map<string, string>>, next: Seen)
    requires Tracks(claims, seen, mapped)
    ensures var id := next.claim.claimId;
            var entry :=
              if id in claims then CurrentClaim(next.claim, None)
              else CurrentClaim(next.claim, FactOf(mapped, next.caseId, id));
            Tracks(claims[id := entry], seen + [next], mapped)
  {
    var id, after := next.claim.claimId, seen + [next];
    var entry :=
      if id in claims then CurrentClaim(next.claim, None)
      else CurrentClaim(next.claim, FactOf(mapped, next.caseId, id));
    forall k ensures CountSeen(after, k) == CountSeen(seen, k) + (if id == k then 1 else 0) {
      assert after[..|seen|] == seen;
    }
    forall s | s in after && CountSeen(after, s.claim.claimId) == 1
      ensures s.claim.claimId in claims[id := entry]
      ensures claims[id := entry][s.claim.claimId] == CurrentClaim(s.claim, FactOf(mapped, s.caseId, s.claim.claimId))
    {
      if s.claim.claimId == id && s in seen {
        SeenIsCounted(seen, s);
      }
    }
  }

  function CaseKey(s: SourceSheet): string { s.caseId }

  function ClaimKey(c: Claim): string { c.claimId }

  /** A claim some sheet holds. */
  ghost predicate Held(sheets: seq<SourceSheet>, s: Seen) {
    exists sheet | sheet in sheets :: sheet.caseId == s.caseId && s.claim in sheet.claims
  }

  method ClaimDictionary(sheets: seq<SourceSheet>, mapped: map<string, map<string, string>>)
    returns (claims: Claims, ghost seen: seq<Seen>)
    ensures Tracks(claims, seen, mapped)
    ensures forall id :: CountSeen(seen, id) == Occurrences(sheets, id)
    ensures forall s | s in seen :: Held(sheets, s)
  {
    hide SortBy, Tracks, FactOf, Below;
    claims, seen := map[], [];
    assert Tracks(claims, seen, mapped) by { TracksNothing(mapped); }
    var ordered := SortBy(sheets, CaseKey);
    SortPermutes(sheets, CaseKey);
    for i := 0 to |ordered|
      invariant Tracks(claims, seen, mapped)
      invariant forall id :: CountSeen(seen, id) == Occurrences(ordered[..i], id)
      invariant forall s | s in seen :: Held(sheets, s)
    {
      var sheet := ordered[i];
      assert ordered[..i + 1] == ordered[..i] + [sheet];
      assert sheet in sheets;
      claims, seen := AddSheet(claims, seen, sheet, mapped);
      forall id ensures CountSeen(seen, id) == Occurrences(ordered[..i + 1], id) {
        OccurrencesSnoc(ordered[..i], sheet, id);
      }
    }
    assert ordered[..|ordered|] == ordered;
    forall id ensures CountSeen(seen, id) == Occurrences(sheets, id) {
      OccurrencesSorted(sheets, CaseKey, id);
    }
  }

  lemma TracksNothing(mapped: map<string, map<string, string>>)
    ensures Tracks(map[], [], mapped)
  {
  }

  /** The inner loop, over one sheet's claims. */
  method AddSheet(before: Claims, ghost earlier: seq<Seen>, sheet: SourceSheet,
                  mapped: map<string, map<string, string>>)
    returns (claims: Claims, ghost seen: seq<Seen>)
    requires Tracks(before, earlier, mapped)
    ensures Tracks(claims, seen, mapped)
    ensures forall id :: CountSeen(seen, id) == CountSeen(earlier, id) + CountClaims(sheet.claims, id)
    ensures forall s | s in seen :: s in earlier || (s.caseId == sheet.caseId && s.claim in sheet.claims)
  {
    hide SortBy, Tracks, Below;
    claims, seen := before, earlier;
    var ordered := SortBy(sheet.claims, ClaimKey);
    SortPermutes(sheet.claims, ClaimKey);
    for j := 0 to |ordered|
      invariant Tracks(claims, seen, mapped)
      invariant forall id :: CountSeen(seen, id) == CountSeen(earlier, id) + CountClaims(ordered[..j], id)
      invariant forall s | s in seen :: s in earlier || (s.caseId == sheet.caseId && s.claim in sheet.claims)
    {
      var claim := ordered[j];
      var fact := FactOf(mapped, sheet.caseId, claim.claimId);
      TrackNext(claims, seen, mapped, Seen(sheet.caseId, claim));
      if claim.claimId !in claims {
        claims := claims[claim.claimId := CurrentClaim(claim, fact)];
      } else {
        claims := claims[claim.claimId := CurrentClaim(claim, None)];
      }
      ghost var previous := seen;
      seen := seen + [Seen(sheet.caseId, claim)];
      assert ordered[..j + 1] == ordered[..j] + [claim];
      assert seen[..|previous|] == previous;
      forall id ensures CountSeen(seen, id) == CountSeen(earlier, id) + CountClaims(ordered[..j + 1], id) {
        CountSnoc(ordered[..j], claim, id);
      }
    }
    assert ordered[..|ordered|] == ordered;
    forall id ensures CountSeen(seen, id) == CountSeen(earlier, id) + CountClaims(sheet.claims, id) {
      CountSorted(sheet.claims, ClaimKey, id);
    }
  }

  lemma {:induction false} ClaimCounted(claims: seq<Claim>, c: Claim)
    requires c in claims
    ensures CountClaims(claims, c.claimId) > 0
  {
    if c != claims[0] {
      ClaimCounted(claims[1..], c);
    }
  }

  lemma {:induction false} SheetCounted(sheets: seq<SourceSheet>, sheet: SourceSheet, id: string)
    requires sheet in sheets
    ensures Occurrences(sheets, id) >= CountClaims(sheet.claims, id)
  {
    if sheet != sheets[0] {
      SheetCounted(sheets[1..], sheet, id);
    }
  }

  lemma HeldCounted(sheets: seq<SourceSheet>, s: Seen)
    requires Held(sheets, s)
    ensures Occurrences(sheets, s.claim.claimId) > 0
  {
    var sheet :| sheet in sheets && sheet.caseId == s.caseId && s.claim in sheet.claims;
    ClaimCounted(sheet.claims, s.claim);
    SheetCounted(sheets, sheet, s.claim.claimId);
  }

  lemma {:induction false} ClaimUnique(claims: seq<Claim>, c: Claim, d: Claim)
    requires c in claims && d in claims && c.claimId == d.claimId && CountClaims(claims, c.claimId) == 1
    ensures c == d
  {
    if c in claims[1..] {
      ClaimCounted(claims[1..], c);
    }
    if d in claims[1..] {
      ClaimCounted(claims[1..], d);
    }
    if c in claims[1..] && d in claims[1..] {
      ClaimUnique(claims[1..], c, d);
    }
  }

  lemma {:induction false} HeldUnique(sheets: seq<SourceSheet>, s: Seen, t: Seen)
    requires Held(sheets, s) && Held(sheets, t) && s.claim.claimId == t.claim.claimId
    requires Occurrences(sheets, s.claim.claimId) == 1
    ensures s == t
  {
    var head, rest := sheets[0], sheets[1..];
    assert sheets == [head] + rest;
    var inHead := s.caseId == head.caseId && s.claim in head.claims;
    var alsoInHead := t.caseId == head.caseId && t.claim in head.claims;
    if inHead {
      ClaimCounted(head.claims, s.claim);
    } else {
      HeldCounted(rest, s);
    }
    if alsoInHead {
      ClaimCounted(head.claims, t.claim);
    } else {
      HeldCounted(rest, t);
    }
    if inHead {
      ClaimUnique(head.claims, s.claim, t.claim);
    } else {
      HeldUnique(rest, s, t);
    }
  }

  /** A claim that occurs once is the one the loops met. */
  lemma SingleIsSeen(sheets: seq<SourceSheet>, seen: seq<Seen>, s: Seen)
    requires forall id :: CountSeen(seen, id) == Occurrences(sheets, id)
    requires forall t | t in seen :: Held(sheets, t)
    requires Held(sheets, s) && Occurrences(sheets, s.claim.claimId) == 1
    ensures s in seen
  {
    CountedIsSeen(seen, s.claim.claimId);
    var t :| t in seen && t.claim.claimId == s.claim.claimId;
    HeldUnique(sheets, s, t);
  }

  lemma DictionaryMeaning(g: Generation, claims: Claims, seen: seq<Seen>, mapped: map<string, map<string, string>>,
                          id: string, f: string)
    requires |g.maps| <= |g.briefRefs|
    requires Tracks(claims, seen, mapped)
    requires forall k :: CountSeen(seen, k) == Occurrences(g.sheets, k)
    requires forall s | s in seen :: Held(g.sheets, s)
    requires forall c, k, v :: (c in mapped && k in mapped[c] && mapped[c][k] == v) <==> InForce(g, c, k, v)
    ensures (id in claims && claims[id].factId == Some(f)) <==>
            Occurrences(g.sheets, id) == 1 &&
            exists s: Seen | s.claim.claimId == id && Held(g.sheets, s) :: InForce(g, s.caseId, id, f)
  {
    hide InForce, Held, CountSeen;
    if Occurrences(g.sheets, id) == 1 {
      CountedIsSeen(seen, id);
      var t :| t in seen && t.claim.claimId == id;
      forall s: Seen | s.claim.claimId == id && Held(g.sheets, s) ensures s == t {
        HeldUnique(g.sheets, s, t);
      }
    }
  }

  /** _current_claims: a claim id is known when some sheet holds it, and it is mapped
      to a fact exactly when it occurs once and the only map of its case is current
      and lists it with that fact. */
  method Current(g: Generation) returns (claims: Claims)
    requires |g.maps| <= |g.briefRefs|
    ensures forall id :: id in claims <==> Occurrences(g.sheets, id) > 0
    ensures forall id, f :: (id in claims && claims[id].factId == Some(f)) <==>
              Occurrences(g.sheets, id) == 1 &&
              exists s: Seen | s.claim.claimId == id && Held(g.sheets, s) :: InForce(g, s.caseId, id, f)
    ensures forall s: Seen | Held(g.sheets, s) && Occurrences(g.sheets, s.claim.claimId) == 1 ::
              s.claim.claimId in claims && claims[s.claim.claimId].claim == s.claim
  {
    var mapped := MappedFacts(g);
    ghost var seen;
    claims, seen := ClaimDictionary(g.sheets, mapped);
    forall id, f
      ensures (id in claims && claims[id].factId == Some(f)) <==>
              Occurrences(g.sheets, id) == 1 &&
              exists s: Seen | s.claim.claimId == id && Held(g.sheets, s) :: InForce(g, s.caseId, id, f)
    {
      DictionaryMeaning(g, claims, seen, mapped, id, f);
    }
    forall s: Seen | Held(g.sheets, s) && Occurrences(g.sheets, s.claim.claimId) == 1
      ensures s.claim.claimId in claims && claims[s.claim.claimId].claim == s.claim
    {
      SingleIsSeen(g.sheets, seen, s);
    }
  }
}
