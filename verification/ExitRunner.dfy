/** The resumable exit runner over the registry
    (src/envresearch/econometrics/exit_runner.py).

    Any run may be cut short by a crash between two steps or by an exception, and
    between any two registry operations other processes may advance runs and bindings
    whose locks this process does not hold.  Every change this process makes is in turn
    one that the others allow. */
module ExitRunner {
  import opened Endings
  import opened Options
  import opened Ordering
  import opened ExitRegistry

  // ---------------------------------------------------------- what is kept sound

  function SortedCases(m: Manifest): seq<Case> {
    SortBy(m.cases, (c: Case) => c.caseId)
  }

  /** The case's write-once pointer binds exactly this case to this analysis. */
  predicate BoundCase(g: Contents, c: Case, analysis: AnalysisRef) {
    var s := AnalysisSubject(c.caseId);
    && s in g.current && g.current[s] in g.objects
    && g.objects[g.current[s]].BindingObject?
    && g.objects[g.current[s]].binding.caseRef == c.caseRef
    && g.objects[g.current[s]].binding.analysisRef == analysis
  }

  /** The receipts are exactly the first cases in case_id order, each with its
      role and the analysis bound to exactly that case. */
  predicate PrefixReceipts(g: Contents, m: Manifest, receipts: seq<Receipt>) {
    && |receipts| <= |SortedCases(m)|
    && forall i | 0 <= i < |receipts| ::
         && receipts[i].caseId == SortedCases(m)[i].caseId
         && receipts[i].role == SortedCases(m)[i].role
         && BoundCase(g, SortedCases(m)[i], receipts[i].analysisRef)
  }

  predicate IsManifest(reference: Ref) {
    reference.contentHash.of.ManifestObject? && reference.contentHash.of.manifest.Valid()
  }

  /** A current run is a prefix of the manifest it names, and its version is one
      more than the number of receipts. */
  predicate RunSound(g: Contents, id: string, reference: Ref) {
    && reference.contentHash.of.RunObject?
    && var run := reference.contentHash.of.run;
    && IsManifest(run.manifestRef)
    && run.manifestRef.contentHash.of.manifest.manifestId == id
    && PrefixReceipts(g, run.manifestRef.contentHash.of.manifest, run.receipts)
    && reference == Ref(RunSubject(id), |run.receipts| + 1, reference.contentHash)
  }

  predicate SubjectSound(g: Contents, s: Subject)
    requires s in g.current
  {
    match s
    case RunSubject(id) => RunSound(g, id, g.current[s])
    case AnalysisSubject(id) => g.current[s].contentHash.of.BindingObject?
    case _ => true
  }

  predicate Sound(g: Contents) {
    Authentic(g) && forall s | s in g.current :: SubjectSound(g, s)
  }

  /** A run never loses or rewrites a receipt. */
  predicate RunExtends(before: Ref, after: Ref) {
    before.contentHash.of.RunObject? && after.contentHash.of.RunObject? &&
    var p, q := before.contentHash.of.run, after.contentHash.of.run;
    p.manifestRef == q.manifestRef && p.receipts <= q.receipts
  }

  /** Objects stay, analysis pointers are write-once, runs only grow. */
  predicate Progress(g: Contents, h: Contents) {
    && (forall r | r in g.objects :: r in h.objects)
    && (forall s | s in g.current && s.AnalysisSubject? :: s in h.current && h.current[s] == g.current[s])
    && (forall s | s in g.current && s.RunSubject? :: s in h.current && RunExtends(g.current[s], h.current[s]))
  }

  lemma ProgressReflexive(g: Contents)
    requires Sound(g)
    ensures Progress(g, g)
  {
    forall s | s in g.current && s.RunSubject? ensures RunExtends(g.current[s], g.current[s]) {
      assert SubjectSound(g, s);
    }
  }

  lemma ProgressTransitive(g: Contents, h: Contents, k: Contents)
    requires Progress(g, h) && Progress(h, k)
    ensures Progress(g, k)
  {
    forall s | s in g.current && s.RunSubject? ensures s in k.current && RunExtends(g.current[s], k.current[s]) {
      assert RunExtends(g.current[s], h.current[s]) && RunExtends(h.current[s], k.current[s]);
    }
  }

  lemma ObjectStays(g: Contents, h: Contents, reference: Ref)
    requires Progress(g, h) && reference in g.objects
    ensures reference in h.objects
  {
  }

  /** Bindings survive progress, so receipts once bound stay bound. */
  lemma BoundCaseStays(g: Contents, h: Contents, c: Case, analysis: AnalysisRef)
    requires Authentic(g) && Authentic(h) && Progress(g, h) && BoundCase(g, c, analysis)
    ensures BoundCase(h, c, analysis)
  {
    var s := AnalysisSubject(c.caseId);
    assert h.current[s] == g.current[s];
    assert g.objects[g.current[s]] == g.current[s].contentHash.of == h.objects[h.current[s]];
  }

  lemma PrefixStays(g: Contents, h: Contents, m: Manifest, receipts: seq<Receipt>)
    requires Authentic(g) && Authentic(h) && Progress(g, h) && PrefixReceipts(g, m, receipts)
    ensures PrefixReceipts(h, m, receipts)
  {
    forall i | 0 <= i < |receipts| ensures BoundCase(h, SortedCases(m)[i], receipts[i].analysisRef) {
      BoundCaseStays(g, h, SortedCases(m)[i], receipts[i].analysisRef);
    }
  }

  /** Progress that changes no pointer but s keeps soundness if s itself is sound. */
  lemma SoundAfterPointer(g: Contents, h: Contents, s: Subject)
    requires Sound(g) && Authentic(h) && Progress(g, h)
    requires forall t | t in h.current && t != s :: t in g.current && h.current[t] == g.current[t]
    requires s in h.current ==> SubjectSound(h, s)
    ensures Sound(h)
  {
    forall t | t in h.current && t != s ensures SubjectSound(h, t) {
      assert SubjectSound(g, t);
      if t.RunSubject? {
        var run := h.current[t].contentHash.of.run;
        PrefixStays(g, h, run.manifestRef.contentHash.of.manifest, run.receipts);
      }
    }
  }

  lemma SortedCasesProperties(m: Manifest)
    ensures SortedBy(SortedCases(m), (c: Case) => c.caseId)
    ensures |SortedCases(m)| == |m.cases|
    ensures forall c :: c in SortedCases(m) <==> c in m.cases
    ensures m.Valid() ==>
              forall i, j | 0 <= i < j < |SortedCases(m)| :: SortedCases(m)[i].caseId != SortedCases(m)[j].caseId
  {
    var key := (c: Case) => c.caseId;
    SortSorted(m.cases, key);
    SortPermutes(m.cases, key);
    if m.Valid() {
      SortKeepsDistinct(m.cases);
    }
  }

  lemma SortKeepsDistinct(cases: seq<Case>)
    requires forall i, j | 0 <= i < j < |cases| :: cases[i].caseId != cases[j].caseId
    ensures var sorted := SortBy(cases, (c: Case) => c.caseId);
            forall i, j | 0 <= i < j < |sorted| :: sorted[i].caseId != sorted[j].caseId
  {
    var key := (c: Case) => c.caseId;
    var sorted := SortBy(cases, key);
    SortPermutes(cases, key);
    forall i, j | 0 <= i < j < |sorted| ensures sorted[i].caseId != sorted[j].caseId {
      if sorted[i].caseId == sorted[j].caseId {
        assert sorted[i] in cases && sorted[j] in cases;
        var p :| 0 <= p < |cases| && cases[p] == sorted[i];
        var q :| 0 <= q < |cases| && cases[q] == sorted[j];
        assert p == q;
        TwiceInSequence(sorted, i, j);
        OnceInSequence(cases, p);
        assert false;
      }
    }
  }

  lemma TwiceInSequence<T>(s: seq<T>, i: nat, j: nat)
    requires i < j < |s| && s[i] == s[j]
    ensures multiset(s)[s[i]] >= 2
  {
    assert s == s[..j] + s[j..];
    assert s[i] in s[..j] && s[i] in s[j..] by {
      assert s[..j][i] == s[i] && s[j..][0] == s[j];
    }
    assert s[i] in multiset(s[..j]) && s[i] in multiset(s[j..]);
  }

  lemma OnceInSequence<T>(s: seq<T>, p: nat)
    requires p < |s| && forall i | 0 <= i < |s| && i != p :: s[i] != s[p]
    ensures multiset(s)[s[p]] == 1
  {
    assert s == s[..p] + [s[p]] + s[p + 1..];
    assert s[p] !in s[..p] && s[p] !in s[p + 1..];
    assert s[p] !in multiset(s[..p]) && s[p] !in multiset(s[p + 1..]);
  }

  // ------------------------------------------------------------- other processes

  /** What other processes may do while this one holds the locks of held. */
  predicate Interference(g: Contents, h: Contents, held: set<Subject>) {
    Sound(h) && Progress(g, h) && forall s | s in held :: Pointer(h, s) == Pointer(g, s)
  }

  lemma InterferenceTransitive(g: Contents, h: Contents, k: Contents, held: set<Subject>)
    requires Interference(g, h, held) && Interference(h, k, held)
    ensures Interference(g, k, held)
  {
    ProgressTransitive(g, h, k);
  }

  /** A change that keeps the registry sound and moves no pointer but the locked ones. */
  predicate KeepsToLocks(w: Write) {
    Sound(w.after) && Progress(w.before, w.after) && w.after.current - w.locks == w.before.current - w.locks
  }

  /** Such a change is interference that every other process allows: no two processes
      hold the same lock. */
  lemma OthersAllow(w: Write, held: set<Subject>)
    requires KeepsToLocks(w) && held !! w.locks
    ensures Interference(w.before, w.after, held)
  {
    forall s | s in held ensures Pointer(w.after, s) == Pointer(w.before, s) {
      assert s in w.after.current <==> s in (w.after.current - w.locks);
      assert s in w.before.current <==> s in (w.before.current - w.locks);
    }
  }

  /** The registry, this process's locks and its own changes so far. */
  datatype View = View(contents: Contents, locks: set<Subject>, writes: seq<Write>)

  ghost function ViewOf(registry: Registry): View
    reads registry
  {
    View(registry.contents, registry.locks, registry.writes)
  }

  /** From u to v: whoever acted, the pointers of still have not moved, and all that
      this process itself changed kept to the locks it held. */
  ghost predicate Kept(u: View, v: View, still: set<Subject>) {
    && Interference(u.contents, v.contents, still)
    && v.locks == u.locks
    && u.writes <= v.writes
    && forall i | |u.writes| <= i < |v.writes| :: KeepsToLocks(v.writes[i])
  }

  lemma KeptItself(u: View, still: set<Subject>)
    requires Sound(u.contents)
    ensures Kept(u, u, still)
  {
    ProgressReflexive(u.contents);
  }

  /** Later steps, with at least the same pointers held still. */
  lemma KeptThen(u: View, v: View, w: View, still: set<Subject>, more: set<Subject>)
    requires Kept(u, v, still) && Kept(v, w, more) && still <= more
    ensures Kept(u, w, still) && Sound(w.contents) && Authentic(w.contents)
  {
    hide KeepsToLocks, Sound, Progress;
    SoundIsAuthentic(w.contents);
    InterferenceTransitive(u.contents, v.contents, w.contents, still);
    assert forall i | |u.writes| <= i < |v.writes| :: w.writes[i] == v.writes[i];
  }

  lemma KeptMeans(u: View, v: View, still: set<Subject>)
    requires Kept(u, v, still)
    ensures Sound(v.contents) && Authentic(v.contents) && Progress(u.contents, v.contents) && v.locks == u.locks
    ensures forall s | s in still :: Pointer(v.contents, s) == Pointer(u.contents, s)
    ensures Interference(u.contents, v.contents, still)
  {
  }

  lemma KeptFewer(u: View, v: View, still: set<Subject>, fewer: set<Subject>)
    requires Kept(u, v, still) && fewer <= still
    ensures Kept(u, v, fewer)
  {
  }

  /** What was kept while holding a lock was kept before and after it too. */
  lemma KeptLocked(u: View, v: View, subject: Subject, still: set<Subject>)
    requires Kept(u.(locks := u.locks + {subject}), v.(locks := u.locks + {subject}), still)
    ensures Kept(u, v.(locks := u.locks), still)
  {
  }

  ghost predicate Records(u: View, v: View) {
    || (v.contents == u.contents && v.writes == u.writes)
    || v.writes == u.writes + [Write(u.contents, v.contents, u.locks)]
  }

  /** One change of this process to the pointer of a lock it holds, or to no pointer. */
  lemma KeptWrite(u: View, v: View, subject: Subject)
    requires Sound(u.contents) && Sound(v.contents) && Progress(u.contents, v.contents)
    requires v.locks == u.locks && Records(u, v)
    requires v.contents.current - {subject} == u.contents.current - {subject}
    requires subject in u.locks || v.contents.current == u.contents.current
    ensures Kept(u, v, u.locks - {subject})
  {
    hide Sound, Progress;
    var g, h := u.contents.current, v.contents.current;
    forall s | s in u.locks - {subject} ensures Pointer(v.contents, s) == Pointer(u.contents, s) {
      assert s in h <==> s in (h - {subject});
      assert s in g <==> s in (g - {subject});
    }
    if subject in u.locks {
      assert h - u.locks == (h - {subject}) - u.locks;
      assert g - u.locks == (g - {subject}) - u.locks;
    }
  }

  /** Other processes act, within what the locks held here leave them. */
  method Yield(registry: Registry, ghost u: View, ghost still: set<Subject>)
    requires Kept(u, ViewOf(registry), still) && still <= registry.locks
    modifies registry`contents, registry`disturbances
    ensures old(registry.disturbances) <= registry.disturbances
    ensures registry.Calm() ==> registry.contents == old(registry.contents)
    ensures Kept(u, ViewOf(registry), still)
    ensures Kept(old(ViewOf(registry)), ViewOf(registry), registry.locks)
    ensures Sound(registry.contents) && Authentic(registry.contents)
  {
    ghost var v := ViewOf(registry);
    KeptItself(v, registry.locks);
    var next: Contents := *;
    if Interference(registry.contents, next, registry.locks) {
      registry.contents := next;
    }
    registry.disturbances := registry.disturbances + (if registry.contents == v.contents then 0 else 1);
    KeptThen(u, v, ViewOf(registry), still, registry.locks);
  }

  // ---------------------------------------------------------- the analysis service

  datatype Status = Passed | Exception

  datatype Report = Report(status: Status, snapshot: Option<Digest>, hasOutputs: bool)

  /** status(): a report, tampered evidence, or another exception. */
  datatype Inspection = Reported(report: Report) | Tampered | Broken

  /** _verify_data_binding and the snapshot rule of verify. */
  predicate SnapshotBound(requireSnapshot: bool, report: Report, role: Role, data: Digest) {
    requireSnapshot ==>
      (report.snapshot.None? ==> role != Green) && (report.snapshot.Some? ==> report.snapshot.value == data)
  }

  /** What the planned role of a case demands of its analysis. */
  predicate Fulfils(role: Role, requireSnapshot: bool, data: Digest, seen: Inspection) {
    && (role == IntegrityFailure ==> seen.Tampered?)
    && (role == Green ==>
          seen.Reported? && seen.report.status.Passed? && (requireSnapshot ==> seen.report.snapshot == Some(data)))
    && (role != IntegrityFailure && role != Green ==>
          seen.Reported? && seen.report.status.Exception? &&
          (requireSnapshot && seen.report.snapshot.Some? ==> seen.report.snapshot.value == data))
  }

  /** The case's pointer names a binding of exactly this case, its data and the analysis. */
  predicate BoundExactly(g: Contents, case_: Case, analysis: AnalysisRef, bindingDataHash: bool) {
    var s := AnalysisSubject(case_.caseId);
    && BoundCase(g, case_, analysis)
    && (bindingDataHash ==> g.objects[g.current[s]].binding.dataHash == Some(case_.dataRef.contentHash))
  }

  /** Why the service is asked for an analysis: to bind its data, to mutate its outputs,
      or to verify a case. */
  datatype Purpose = DataBinding | Mutation | Verification

  datatype Seen = Seen(purpose: Purpose, case_: Case, analysis: AnalysisRef, inspection: Inspection)

  /** What the service showed is what it was asked for. */
  predicate Served(s: Seen, requireSnapshot: bool) {
    match s.purpose
    case DataBinding =>
      s.inspection.Reported?
      && SnapshotBound(requireSnapshot, s.inspection.report, s.case_.role, s.case_.dataRef.contentHash)
    case Mutation =>
      s.inspection.Tampered?
      || (s.inspection.Reported? && s.inspection.report.status.Passed? && s.inspection.report.hasOutputs)
    case Verification => Fulfils(s.case_.role, requireSnapshot, s.case_.dataRef.contentHash, s.inspection)
  }

  /** One of the inspections from index from on was of this case for this purpose, and
      showed what it demands. */
  ghost predicate ServedSince(log: seq<Seen>, from: nat, purpose: Purpose, c: Case, analysis: AnalysisRef,
                              requireSnapshot: bool)
  {
    exists i | from <= i < |log| ::
      log[i].purpose == purpose && log[i].case_ == c && log[i].analysis == analysis && Served(log[i], requireSnapshot)
  }

  ghost predicate AllServed(log: seq<Seen>, from: nat, requireSnapshot: bool) {
    forall i | from <= i < |log| :: Served(log[i], requireSnapshot)
  }

  /** The local analysis service, as far as the runner sees it: it may answer anything,
      and everything it answers is on record. */
  class AnalysisService {
    ghost var seen: seq<Seen>
    ghost var produced: seq<(Case, AnalysisRef)>
    ghost var mutated: seq<AnalysisRef>
    ghost var refusals: nat

    constructor ()
      ensures seen == [] && produced == [] && mutated == [] && refusals == 0
    {
      seen, produced, mutated, refusals := [], [], [], 0;
    }

    twostate predicate Grew()
      reads this
    {
      old(seen) <= seen && old(produced) <= produced && old(mutated) <= mutated && old(refusals) <= refusals
    }

    /** Run the analysis of a case on its data, or fail. */
    method RunExact(case_: Case) returns (analysis: Option<AnalysisRef>)
      modifies this`produced, this`refusals
      ensures Grew()
      ensures analysis.Some? ==> produced == old(produced) + [(case_, analysis.value)] && refusals == old(refusals)
      ensures analysis.None? ==> produced == old(produced) && refusals > old(refusals)
    {
      analysis := *;
      if analysis.Some? {
        produced := produced + [(case_, analysis.value)];
      } else {
        refusals := refusals + 1;
      }
    }

    method Status(purpose: Purpose, case_: Case, analysis: AnalysisRef) returns (inspection: Inspection)
      modifies this`seen
      ensures seen == old(seen) + [Seen(purpose, case_, analysis, inspection)]
    {
      inspection := *;
      seen := seen + [Seen(purpose, case_, analysis, inspection)];
    }

    /** Flip one byte of the first output. */
    method FlipByte(analysis: AnalysisRef)
      modifies this`mutated
      ensures mutated == old(mutated) + [analysis]
    {
      mutated := mutated + [analysis];
    }
  }

  /** The case input is the one the case describes, and it reads the case's data. */
  predicate DescribedBy(c: Case) {
    && c.caseRef.contentHash.of.CaseObject?
    && var input := c.caseRef.contentHash.of.input;
    && input.caseId == c.caseId && input.family == c.family
    && input.dataRef == c.dataRef == input.dataPath
    && c.dataRef.contentHash.of.DataObject?
  }

  /** Everything the registry must hold for a case to be executed and verified. */
  ghost predicate Ready(g: Contents, c: Case, bindingDataHash: bool) {
    var s := AnalysisSubject(c.caseId);
    && DescribedBy(c) && c.caseRef in g.objects && c.dataRef in g.objects
    && (s in g.current ==>
          && g.current[s].contentHash.of.BindingObject?
          && g.current[s].contentHash.of.binding.caseRef == c.caseRef
          && (bindingDataHash ==> g.current[s].contentHash.of.binding.dataHash == Some(c.dataRef.contentHash)))
  }

  lemma ReadyStays(g: Contents, h: Contents, c: Case, bindingDataHash: bool)
    requires Ready(g, c, bindingDataHash) && Progress(g, h)
    requires Pointer(h, AnalysisSubject(c.caseId)) == Pointer(g, AnalysisSubject(c.caseId))
    ensures Ready(h, c, bindingDataHash)
  {
  }

  class RegistryAnalysisExecutor {
    const registry: Registry
    const service: AnalysisService
    const requireSnapshot: bool
    const bindingDataHash: bool

    constructor (registry: Registry, service: AnalysisService, requireSnapshot: bool, bindingDataHash: bool)
      ensures this.registry == registry && this.service == service
      ensures this.requireSnapshot == requireSnapshot && this.bindingDataHash == bindingDataHash
    {
      this.registry, this.service := registry, service;
      this.requireSnapshot, this.bindingDataHash := requireSnapshot, bindingDataHash;
    }

    /** Nothing has disturbed the registry, and the service has shown what it was asked for. */
    twostate predicate Smooth()
      reads registry, service
    {
      && registry.Calm() && service.refusals == old(service.refusals)
      && AllServed(service.seen, |old(service.seen)|, requireSnapshot)
    }

    /** The counters only go up and the records only grow. */
    twostate predicate Onward()
      reads registry, service
    {
      old(registry.disturbances) <= registry.disturbances && service.Grew()
    }

    method LoadInput(reference: Ref) returns (e: Exit<CaseInput>)
      requires Authentic(registry.contents)
      modifies registry`disturbances
      ensures Onward()
      ensures registry.Calm() && reference in registry.contents.objects && reference.contentHash.of.CaseObject? ==>
                e.Done?
      ensures e.Raised? ==> Possible(e.fault)
      ensures e.Done? ==> reference.contentHash.of == CaseObject(e.value)
    {
      var payload :- registry.Load(reference);
      if !payload.CaseObject? {
        return Raised(WrongModel);
      }
      return Done(payload.input);
    }

    method LoadBytes(reference: Ref) returns (e: Exit<()>)
      requires Authentic(registry.contents)
      modifies registry`disturbances
      ensures Onward()
      ensures registry.Calm() && reference in registry.contents.objects && reference.contentHash.of.DataObject? ==>
                e.Done?
      ensures e.Raised? ==> Possible(e.fault)
      ensures e.Done? ==> reference.contentHash.of.DataObject?
    {
      var payload :- registry.Load(reference);
      if !payload.DataObject? {
        return Raised(WrongModel);
      }
      return Done(());
    }

    method LoadBinding(reference: Ref) returns (e: Exit<Binding>)
      requires Authentic(registry.contents)
      modifies registry`disturbances
      ensures Onward()
      ensures registry.Calm() && reference in registry.contents.objects ==>
                reference.contentHash.of.BindingObject? ==> e.Done?
      ensures e.Raised? ==> Possible(e.fault)
      ensures e.Done? ==> reference in registry.contents.objects
      ensures e.Done? ==> registry.contents.objects[reference] == BindingObject(e.value)
    {
      var payload :- registry.Load(reference);
      if !payload.BindingObject? {
        return Raised(WrongModel);
      }
      return Done(payload.binding);
    }

    /** The analysis ran on exactly the case's data. */
    method VerifyDataBinding(case_: Case, input: CaseInput, analysis: AnalysisRef) returns (e: Exit<()>)
      requires Sound(registry.contents) && input.dataRef == case_.dataRef
      modifies registry`contents, registry`disturbances, service`seen
      ensures Kept(old(ViewOf(registry)), ViewOf(registry), registry.locks)
      ensures Onward() && (registry.Calm() ==> registry.contents == old(registry.contents))
      ensures Smooth() && Ready(old(registry.contents), case_, bindingDataHash) ==> e.Done?
      ensures e.Raised? ==> Possible(e.fault)
      ensures e.Done? ==>
                ServedSince(service.seen, |old(service.seen)|, DataBinding, case_, analysis, requireSnapshot)
    {
      hide Interference, KeepsToLocks, SubjectSound;
      ghost var u := ViewOf(registry);
      KeptItself(u, u.locks);
      var _ :- LoadBytes(input.dataRef);
      Yield(registry, u, u.locks);
      ghost var from := |service.seen|;
      var inspection := service.Status(DataBinding, case_, analysis);
      assert service.seen[from] == Seen(DataBinding, case_, analysis, inspection);
      if !inspection.Reported? {
        return Raised(Foreign);
      }
      if !SnapshotBound(requireSnapshot, inspection.report, case_.role, input.dataRef.contentHash) {
        return Raised(Rejected);
      }
      return Done(());
    }

    /** Run the analysis once and bind the case to it, under the lock of the case's
        pointer; later calls return the bound analysis. */
    method Execute(case_: Case) returns (e: Exit<AnalysisRef>)
      requires Sound(registry.contents) && MayWait(registry.locks, AnalysisSubject(case_.caseId))
      modifies registry, service
      ensures Kept(old(ViewOf(registry)), ViewOf(registry), registry.locks)
      ensures Onward() && (registry.Calm() ==> OnlyMoves(old(registry.contents), registry.contents, case_))
      ensures Smooth() && Ready(old(registry.contents), case_, bindingDataHash) ==> e.Done?
      ensures e.Raised? ==> Possible(e.fault)
      ensures e.Done? ==> BoundExactly(registry.contents, case_, e.value, bindingDataHash) && DescribedBy(case_)
      ensures RanAtMostOnce(old(service.produced), service.produced, case_, e)
    {
      hide Interference, KeepsToLocks, BoundExactly, SubjectSound, DescribedBy;
      var subject := AnalysisSubject(case_.caseId);
      ghost var u, still := ViewOf(registry), registry.locks;
      KeptItself(u, still);
      Yield(registry, u, still);
      var _ :- registry.Acquire(subject);
      ghost var v := ViewOf(registry);
      e := ExecuteLocked(case_);
      ghost var w := ViewOf(registry);
      assert (still + {subject}) - {subject} == still;
      registry.Release(subject);
      KeptLocked(v.(locks := still), w, subject, still);
      KeptThen(u, v.(locks := still), ViewOf(registry), still, still);
    }

    /** A bound case keeps its analysis and nothing is run; an unbound one runs once. */
    method ExecuteLocked(case_: Case) returns (e: Exit<AnalysisRef>)
      requires Sound(registry.contents) && AnalysisSubject(case_.caseId) in registry.locks
      modifies registry`contents, registry`writes, registry`disturbances, service
      ensures Kept(old(ViewOf(registry)), ViewOf(registry), registry.locks - {AnalysisSubject(case_.caseId)})
      ensures Onward() && (registry.Calm() ==> OnlyMoves(old(registry.contents), registry.contents, case_))
      ensures Smooth() && Ready(old(registry.contents), case_, bindingDataHash) ==> e.Done?
      ensures e.Raised? ==> Possible(e.fault)
      ensures e.Done? ==> BoundExactly(registry.contents, case_, e.value, bindingDataHash) && DescribedBy(case_)
      ensures AnalysisSubject(case_.caseId) in old(registry.contents).current ==>
                service.produced == old(service.produced)
      ensures RanAtMostOnce(old(service.produced), service.produced, case_, e)
      ensures e.Done? && !case_.caseRef.contentHash.of.input.mutated ==>
                service.mutated == old(service.mutated) &&
                ServedSince(service.seen, |old(service.seen)|, DataBinding, case_, e.value, requireSnapshot)
      ensures e.Done? && case_.caseRef.contentHash.of.input.mutated ==>
                ServedSince(service.seen, |old(service.seen)|, Mutation, case_, e.value, requireSnapshot)
    {
      hide Interference, KeepsToLocks, BoundExactly, SubjectSound, Served, DescribedBy, Ready, Progress;
      ghost var u, locks, still := ViewOf(registry), registry.locks, registry.locks - {AnalysisSubject(case_.caseId)};
      ProgressReflexive(u.contents);
      var read := ReadCase(case_);
      ghost var v := ViewOf(registry);
      KeptFewer(u, v, locks, still);
      var input :- read;
      KeptMeans(u, v, locks);
      e := Obtain(case_, input);
      ghost var w := ViewOf(registry);
      KeptThen(u, v, w, still, still);
      if e.Done? && input.mutated {
        Yield(registry, u, still);
        BoundExactlyStays(w, ViewOf(registry), locks, case_, e.value, bindingDataHash);
        var _ :- EnsureIntegrityMutation(case_, e.value);
      }
    }

    /** The analysis bound to the case, or a new one bound now. */
    method Obtain(case_: Case, input: CaseInput) returns (e: Exit<AnalysisRef>)
      requires Sound(registry.contents) && AnalysisSubject(case_.caseId) in registry.locks
      requires DescribedBy(case_) && case_.caseRef.contentHash.of == CaseObject(input)
      modifies registry`contents, registry`writes, registry`disturbances
      modifies service`produced, service`refusals, service`seen
      ensures Kept(old(ViewOf(registry)), ViewOf(registry), registry.locks - {AnalysisSubject(case_.caseId)})
      ensures Onward() && (registry.Calm() ==> OnlyMoves(old(registry.contents), registry.contents, case_))
      ensures Smooth() && Ready(old(registry.contents), case_, bindingDataHash) ==> e.Done?
      ensures e.Raised? ==> Possible(e.fault)
      ensures e.Done? ==> BoundExactly(registry.contents, case_, e.value, bindingDataHash)
      ensures AnalysisSubject(case_.caseId) in old(registry.contents).current ==>
                service.produced == old(service.produced)
      ensures RanAtMostOnce(old(service.produced), service.produced, case_, e)
      ensures e.Done? && !input.mutated ==>
                ServedSince(service.seen, |old(service.seen)|, DataBinding, case_, e.value, requireSnapshot)
    {
      hide Interference, KeepsToLocks, BoundExactly, SubjectSound, Served, DescribedBy, Ready, Progress;
      var subject := AnalysisSubject(case_.caseId);
      ghost var u, locks, still := ViewOf(registry), registry.locks, registry.locks - {subject};
      KeptItself(u, still);
      ProgressReflexive(u.contents);
      var current :- registry.Current(subject);
      if current.None? {
        e := RunAndBind(case_, input);
      } else {
        e := Reuse(case_, input, current.value);
        KeptFewer(u, ViewOf(registry), locks, still);
      }
    }

    /** The case input, checked against the case and its data. */
    method ReadCase(case_: Case) returns (e: Exit<CaseInput>)
      requires Sound(registry.contents)
      modifies registry`contents, registry`disturbances
      ensures Kept(old(ViewOf(registry)), ViewOf(registry), registry.locks)
      ensures Onward() && (registry.Calm() ==> registry.contents == old(registry.contents))
      ensures registry.Calm() && Ready(old(registry.contents), case_, bindingDataHash) ==> e.Done?
      ensures e.Raised? ==> Possible(e.fault)
      ensures e.Done? ==> DescribedBy(case_) && case_.caseRef.contentHash.of == CaseObject(e.value)
    {
      hide Interference, KeepsToLocks, SubjectSound;
      ghost var u, locks := ViewOf(registry), registry.locks;
      KeptItself(u, locks);
      Yield(registry, u, locks);
      var input :- LoadInput(case_.caseRef);
      if input.caseId != case_.caseId || input.family != case_.family || input.dataRef != case_.dataRef {
        return Raised(CaseMismatch);
      }
      Yield(registry, u, locks);
      var _ :- LoadBytes(input.dataRef);
      if input.dataPath != input.dataRef {
        return Raised(DataNotBound);
      }
      Yield(registry, u, locks);
      return Done(input);
    }

    /** The case is not bound yet: run its analysis and bind it. */
    method RunAndBind(case_: Case, input: CaseInput) returns (e: Exit<AnalysisRef>)
      requires Sound(registry.contents) && AnalysisSubject(case_.caseId) in registry.locks
      requires Pointer(registry.contents, AnalysisSubject(case_.caseId)) == None
      requires DescribedBy(case_) && case_.caseRef.contentHash.of == CaseObject(input)
      modifies registry`contents, registry`writes, registry`disturbances
      modifies service`produced, service`refusals, service`seen
      ensures Kept(old(ViewOf(registry)), ViewOf(registry), registry.locks - {AnalysisSubject(case_.caseId)})
      ensures Onward() && (registry.Calm() ==> OnlyMoves(old(registry.contents), registry.contents, case_))
      ensures Smooth() && Ready(old(registry.contents), case_, bindingDataHash) ==> e.Done?
      ensures e.Raised? ==> Possible(e.fault)
      ensures RanAtMostOnce(old(service.produced), service.produced, case_, e)
      ensures e.Done? ==> BoundExactly(registry.contents, case_, e.value, bindingDataHash)
      ensures e.Done? ==> service.produced == old(service.produced) + [(case_, e.value)]
      ensures e.Done? ==>
                ServedSince(service.seen, |old(service.seen)|, DataBinding, case_, e.value, requireSnapshot)
    {
      hide Interference, KeepsToLocks, SubjectSound, Served;
      var subject := AnalysisSubject(case_.caseId);
      ghost var u, locks := ViewOf(registry), registry.locks;
      KeptItself(u, locks);
      KeptFewer(u, u, locks, locks - {subject});
      ProgressReflexive(u.contents);
      var _ :- registry.Pause();
      var produced := service.RunExact(case_);
      if !produced.Some? {
        return Raised(Foreign);
      }
      Yield(registry, u, locks);
      ghost var v := ViewOf(registry);
      var checked := VerifyDataBinding(case_, input, produced.value);
      ghost var w := ViewOf(registry);
      KeptThen(u, v, w, locks, locks);
      KeptFewer(u, w, locks, locks - {subject});
      var _ :- checked;
      KeptMeans(u, w, locks);
      var dataHash := if bindingDataHash then Some(input.dataRef.contentHash) else None;
      var bound := Bind(case_, Binding(case_.caseRef, produced.value, dataHash));
      KeptThen(u, w, ViewOf(registry), locks - {subject}, locks - {subject});
      var _ :- bound;
      return Done(produced.value);
    }

    /** The case is bound: return its analysis if the binding is this generation's. */
    method Reuse(case_: Case, input: CaseInput, current: Ref) returns (e: Exit<AnalysisRef>)
      requires Sound(registry.contents) && AnalysisSubject(case_.caseId) in registry.locks
      requires Pointer(registry.contents, AnalysisSubject(case_.caseId)) == Some(current)
      requires DescribedBy(case_) && case_.caseRef.contentHash.of == CaseObject(input)
      modifies registry`contents, registry`disturbances, service`seen
      ensures Kept(old(ViewOf(registry)), ViewOf(registry), registry.locks)
      ensures Onward() && (registry.Calm() ==> registry.contents == old(registry.contents))
      ensures Smooth() && Ready(old(registry.contents), case_, bindingDataHash) ==> e.Done?
      ensures e.Raised? ==> Possible(e.fault)
      ensures e.Done? ==> BoundExactly(registry.contents, case_, e.value, bindingDataHash)
      ensures e.Done? && !input.mutated ==>
                ServedSince(service.seen, |old(service.seen)|, DataBinding, case_, e.value, requireSnapshot)
    {
      hide Interference, KeepsToLocks, SubjectSound, Served;
      ghost var u, locks := ViewOf(registry), registry.locks;
      KeptItself(u, locks);
      Yield(registry, u, locks);
      KeptMeans(u, ViewOf(registry), locks);
      var binding :- LoadBinding(current);
      if binding.caseRef != case_.caseRef
         || (bindingDataHash && binding.dataHash != Some(input.dataRef.contentHash)) {
        return Raised(StaleGeneration);
      }
      var analysis := binding.analysisRef;
      assert BoundExactly(registry.contents, case_, analysis, bindingDataHash);
      hide BoundExactly;
      if !input.mutated {
        ghost var v := ViewOf(registry);
        var checked := VerifyDataBinding(case_, input, analysis);
        KeptThen(u, v, ViewOf(registry), locks, locks);
        BoundExactlyStays(v, ViewOf(registry), locks, case_, analysis, bindingDataHash);
        var _ :- checked;
      }
      return Done(analysis);
    }

    predicate BindingAt(g: Contents, caseId: string, binding: Binding) {
      var s := AnalysisSubject(caseId);
      s in g.current && g.current[s] in g.objects && g.objects[g.current[s]] == BindingObject(binding)
    }

    /** Publish the binding, then set the pointer that no one has set. */
    method Bind(case_: Case, binding: Binding) returns (e: Exit<()>)
      requires Sound(registry.contents) && AnalysisSubject(case_.caseId) in registry.locks
      requires Pointer(registry.contents, AnalysisSubject(case_.caseId)) == None
      modifies registry`contents, registry`writes, registry`disturbances
      ensures Kept(old(ViewOf(registry)), ViewOf(registry), registry.locks - {AnalysisSubject(case_.caseId)})
      ensures Onward() && (registry.Calm() ==> e.Done?)
      ensures registry.Calm() ==> OnlyMoves(old(registry.contents), registry.contents, case_)
      ensures e.Raised? ==> Possible(e.fault)
      ensures e.Done? ==> BindingAt(registry.contents, case_.caseId, binding)
    {
      hide SubjectSound, Progress, Kept, Interference;
      var subject := AnalysisSubject(case_.caseId);
      ghost var u, still := ViewOf(registry), registry.locks - {subject};
      var published := registry.Publish(BindingArtifact(case_.caseId), BindingObject(binding), 1);
      ghost var v := ViewOf(registry);
      PublishKept(u, v, still);
      if published.IsFailure() {
        return published.PropagateFailure();
      }
      Yield(registry, u, still);
      ghost var w := ViewOf(registry);
      KeptMeans(v, w, registry.locks);
      ObjectStays(v.contents, w.contents, published.value);
      e := registry.SetCurrent(subject, published.value);
      ghost var x := ViewOf(registry);
      BindKept(w, x, subject, published.value);
      KeptThen(u, w, x, still, still);
      KeptMeans(u, x, still);
    }

    /** The evidence of an integrity case is tampered with once it is green. */
    method EnsureIntegrityMutation(case_: Case, analysis: AnalysisRef) returns (e: Exit<()>)
      modifies registry`disturbances, service`seen, service`mutated
      ensures Onward() && (Smooth() ==> e.Done?)
      ensures e.Raised? ==> Possible(e.fault)
      ensures e.Done? ==> ServedSince(service.seen, |old(service.seen)|, Mutation, case_, analysis, requireSnapshot)
      ensures e.Done? && service.seen[|service.seen| - 1].inspection.Reported? ==>
                service.mutated == old(service.mutated) + [analysis]
    {
      ghost var from := |service.seen|;
      var inspection := service.Status(Mutation, case_, analysis);
      assert service.seen[from] == Seen(Mutation, case_, analysis, inspection);
      match inspection {
        case Tampered => return Done(());
        case Broken => return Raised(Foreign);
        case Reported(report) =>
          if !report.status.Passed? || !report.hasOutputs {
            return Raised(Rejected);
          }
          service.FlipByte(analysis);
          e := registry.Pause();
      }
    }

    /** Reopen the evidence, or require the planned rejection of an integrity case. */
    method Verify(case_: Case, analysis: AnalysisRef) returns (e: Exit<()>)
      requires Sound(registry.contents)
      modifies registry`contents, registry`disturbances, service`seen
      ensures Kept(old(ViewOf(registry)), ViewOf(registry), registry.locks)
      ensures Onward() && (registry.Calm() ==> registry.contents == old(registry.contents))
      ensures Smooth() && Ready(old(registry.contents), case_, bindingDataHash) ==>
                BoundExactly(old(registry.contents), case_, analysis, bindingDataHash) ==> e.Done?
      ensures e.Raised? ==> Possible(e.fault)
      ensures e.Done? ==> BoundExactly(registry.contents, case_, analysis, bindingDataHash)
      ensures e.Done? ==>
                ServedSince(service.seen, |old(service.seen)|, Verification, case_, analysis, requireSnapshot)
    {
      hide Interference, KeepsToLocks, BoundExactly;
      ghost var u, locks := ViewOf(registry), registry.locks;
      var binding := ReadBinding(case_, analysis);
      if binding.IsFailure() {
        return binding.PropagateFailure();
      }
      ghost var v := ViewOf(registry);
      KeptMeans(u, v, locks);
      Yield(registry, u, locks);
      BoundExactlyStays(v, ViewOf(registry), locks, case_, analysis, bindingDataHash);
      ghost var from := |service.seen|;
      var inspection := service.Status(Verification, case_, analysis);
      assert service.seen[from] == Seen(Verification, case_, analysis, inspection);
      match inspection {
        case Broken => return Raised(Foreign);
        case Tampered => return if case_.role == IntegrityFailure then Done(()) else Raised(Foreign);
        case Reported(report) =>
          if case_.role == IntegrityFailure
             || !SnapshotBound(requireSnapshot, report, case_.role, case_.dataRef.contentHash)
             || (report.status.Passed? <==> case_.role != Green) {
            return Raised(Rejected);
          }
          return Done(());
      }
    }

    /** The checks of verify before the analysis itself is inspected. */
    method ReadBinding(case_: Case, analysis: AnalysisRef) returns (e: Exit<()>)
      requires Sound(registry.contents)
      modifies registry`contents, registry`disturbances
      ensures Kept(old(ViewOf(registry)), ViewOf(registry), registry.locks)
      ensures Onward() && (registry.Calm() ==> registry.contents == old(registry.contents))
      ensures registry.Calm() && Ready(old(registry.contents), case_, bindingDataHash) ==>
                BoundExactly(old(registry.contents), case_, analysis, bindingDataHash) ==> e.Done?
      ensures e.Raised? ==> Possible(e.fault)
      ensures e.Done? ==> BoundExactly(registry.contents, case_, analysis, bindingDataHash)
    {
      hide Interference, KeepsToLocks, SubjectSound, Progress;
      ghost var u, locks := ViewOf(registry), registry.locks;
      KeptItself(u, locks);
      Yield(registry, u, locks);
      var input :- LoadInput(case_.caseRef);
      if input.dataRef != case_.dataRef {
        return Raised(CaseMismatch);
      }
      Yield(registry, u, locks);
      var _ :- LoadBytes(input.dataRef);
      Yield(registry, u, locks);
      ghost var v := ViewOf(registry);
      var found := CurrentBinding(case_);
      KeptThen(u, v, ViewOf(registry), locks, locks);
      var binding :- found;
      if binding.caseRef != case_.caseRef || binding.analysisRef != analysis
         || (bindingDataHash && binding.dataHash != Some(input.dataRef.contentHash)) {
        return Raised(BindingStale);
      }
      return Done(());
    }

    /** The binding the case's pointer names. */
    method CurrentBinding(case_: Case) returns (e: Exit<Binding>)
      requires Sound(registry.contents)
      modifies registry`contents, registry`disturbances
      ensures Kept(old(ViewOf(registry)), ViewOf(registry), registry.locks)
      ensures Onward() && (registry.Calm() ==> registry.contents == old(registry.contents))
      ensures registry.Calm() && AnalysisSubject(case_.caseId) in old(registry.contents).current ==> e.Done?
      ensures e.Raised? ==> Possible(e.fault)
      ensures e.Done? ==> BindingAt(registry.contents, case_.caseId, e.value)
    {
      hide Interference, KeepsToLocks, RunSound;
      ghost var u, locks := ViewOf(registry), registry.locks;
      var s := AnalysisSubject(case_.caseId);
      KeptItself(u, locks);
      assert s in u.contents.current ==> SubjectSound(u.contents, s);
      hide SubjectSound;
      var current :- registry.Current(s);
      if current.None? {
        return Raised(BindingMissing);
      }
      Yield(registry, u, locks);
      KeptMeans(u, ViewOf(registry), locks);
      e := LoadBinding(current.value);
    }
  }

  /** The analysis was run at most once more, for this case, and then it is the one returned. */
  ghost predicate RanAtMostOnce(before: seq<(Case, AnalysisRef)>, after: seq<(Case, AnalysisRef)>, c: Case,
                                e: Exit<AnalysisRef>)
  {
    || after == before
    || (|after| == |before| + 1 && before <= after && after[|before|].0 == c
        && (e.Done? ==> after[|before|].1 == e.value))
  }

  /** No pointer but the case's own is moved. */
  ghost predicate OnlyMoves(g: Contents, h: Contents, c: Case) {
    Progress(g, h) && h.current - {AnalysisSubject(c.caseId)} == g.current - {AnalysisSubject(c.caseId)}
  }

  /** A binding once made stays, whoever acts. */
  lemma BoundExactlyStays(u: View, v: View, still: set<Subject>, c: Case, analysis: AnalysisRef, dataHash: bool)
    requires Sound(u.contents) && Kept(u, v, still) && BoundExactly(u.contents, c, analysis, dataHash)
    ensures BoundExactly(v.contents, c, analysis, dataHash)
  {
    BoundCaseStays(u.contents, v.contents, c, analysis);
    var s := AnalysisSubject(c.caseId);
    assert v.contents.current[s] == u.contents.current[s];
  }

  /** Publishing changes no pointer. */
  lemma PublishKept(u: View, v: View, still: set<Subject>)
    requires Sound(u.contents) && Authentic(v.contents) && v.contents.current == u.contents.current
    requires forall r | r in u.contents.objects :: r in v.contents.objects
    requires v.locks == u.locks && Records(u, v)
    ensures Kept(u, v, still) && Sound(v.contents)
  {
    hide Progress, SubjectSound, Authentic;
    PublishProgress(u.contents, v.contents);
    InputPointerUnchanged(u.contents, v.contents);
  }

  /** Setting a case's unset pointer to a binding, under its lock. */
  lemma BindKept(u: View, v: View, subject: Subject, reference: Ref)
    requires Sound(u.contents) && Authentic(v.contents) && v.contents.objects == u.contents.objects
    requires subject.AnalysisSubject? && subject !in u.contents.current && subject in u.locks
    requires reference.contentHash.of.BindingObject?
    requires || v.contents.current == u.contents.current
             || v.contents.current == u.contents.current[subject := reference]
    requires v.locks == u.locks && Records(u, v)
    ensures Kept(u, v, u.locks - {subject}) && Sound(v.contents)
  {
    hide Progress, RunSound, Authentic, Kept;
    BindProgress(u.contents, v.contents, subject, reference);
    SoundAfterPointer(u.contents, v.contents, subject);
    KeptWrite(u, v, subject);
  }

  /** Moving a run's pointer to an extension of it, under its lock. */
  lemma RunMovedKept(u: View, v: View, id: string, reference: Ref)
    requires Sound(u.contents) && Authentic(v.contents) && v.contents.objects == u.contents.objects
    requires RunSubject(id) in u.locks && RunSound(u.contents, id, reference)
    requires Pointer(u.contents, RunSubject(id)).Some? ==> RunExtends(u.contents.current[RunSubject(id)], reference)
    requires || v.contents.current == u.contents.current
             || v.contents.current == u.contents.current[RunSubject(id) := reference]
    requires v.locks == u.locks && Records(u, v)
    ensures Kept(u, v, u.locks - {RunSubject(id)}) && Sound(v.contents) && RunSound(v.contents, id, reference)
  {
    hide Progress, RunExtends, SubjectSound, PrefixReceipts, Authentic, Kept;
    PublishRunProgress(u.contents, v.contents, id, reference);
    var run := reference.contentHash.of.run;
    PrefixStays(u.contents, v.contents, run.manifestRef.contentHash.of.manifest, run.receipts);
    PointerSound(u.contents, v.contents, RunSubject(id), reference);
    KeptWrite(u, v, RunSubject(id));
  }

  lemma PublishProgress(g: Contents, h: Contents)
    requires Sound(g) && h.current == g.current
    requires forall r | r in g.objects :: r in h.objects
    ensures Progress(g, h)
  {
    ProgressReflexive(g);
  }

  lemma BindProgress(g: Contents, h: Contents, subject: Subject, reference: Ref)
    requires Sound(g) && subject.AnalysisSubject? && subject !in g.current && h.objects == g.objects
    requires h.current == g.current || h.current == g.current[subject := reference]
    ensures Progress(g, h)
  {
    ProgressReflexive(g);
  }

  // -------------------------------------------------------------------- the runner

  /** The run object lists every case of the manifest, once, in case_id order. */
  predicate Completes(g: Contents, manifestRef: Ref, runRef: Ref) {
    && IsManifest(manifestRef)
    && runRef.contentHash.of.RunObject?
    && runRef.contentHash.of.run.manifestRef == manifestRef
    && PrefixReceipts(g, manifestRef.contentHash.of.manifest, runRef.contentHash.of.run.receipts)
    && |runRef.contentHash.of.run.receipts| == |manifestRef.contentHash.of.manifest.cases|
  }

  lemma PublishRunProgress(g: Contents, h: Contents, id: string, reference: Ref)
    requires Sound(g) && h.objects == g.objects
    requires h.current == g.current || h.current == g.current[RunSubject(id) := reference]
    requires RunSubject(id) in g.current ==> RunExtends(g.current[RunSubject(id)], reference)
    ensures Progress(g, h)
  {
    ProgressReflexive(g);
  }

  /** What the loop knows: the durable run is exactly the state in memory. */
  ghost predicate InStep(g: Contents, manifestRef: Ref, m: Manifest, current: Option<Ref>, state: ExitRun) {
    && manifestRef.contentHash.of == ManifestObject(m)
    && m.Valid()
    && state.manifestRef == manifestRef
    && PrefixReceipts(g, m, state.receipts)
    && Pointer(g, RunSubject(m.manifestId)) == current
    && (current.None? ==> state.receipts == [])
    && (current.Some? ==>
          current.value == Ref(RunSubject(m.manifestId), |state.receipts| + 1, Sha256(RunObject(state))))
  }

  lemma InStepStays(g: Contents, h: Contents, manifestRef: Ref, m: Manifest, current: Option<Ref>, state: ExitRun)
    requires InStep(g, manifestRef, m, current, state) && Sound(g)
    requires Interference(g, h, {RunSubject(m.manifestId)})
    ensures InStep(h, manifestRef, m, current, state)
  {
    PrefixStays(g, h, m, state.receipts);
    assert RunSubject(m.manifestId) in {RunSubject(m.manifestId)};
  }

  /** Whoever acts while this process holds the run's lock, it stays in step. */
  lemma InStepKept(u: View, v: View, manifestRef: Ref, m: Manifest, current: Option<Ref>, state: ExitRun)
    requires InStep(u.contents, manifestRef, m, current, state) && Sound(u.contents)
    requires Kept(u, v, {RunSubject(m.manifestId)})
    ensures InStep(v.contents, manifestRef, m, current, state)
  {
    hide InStep;
    InStepStays(u.contents, v.contents, manifestRef, m, current, state);
  }

  lemma InStepReceipts(g: Contents, manifestRef: Ref, m: Manifest, current: Option<Ref>, state: ExitRun)
    requires InStep(g, manifestRef, m, current, state)
    ensures PrefixReceipts(g, m, state.receipts) && state.manifestRef == manifestRef
    ensures Pointer(g, RunSubject(m.manifestId)) == current
  {
  }

  /** The next case fits once it is bound to exactly its analysis. */
  lemma ReceiptFits(g: Contents, manifestRef: Ref, m: Manifest, current: Option<Ref>, state: ExitRun,
                    analysis: AnalysisRef, dataHash: bool)
    requires InStep(g, manifestRef, m, current, state) && |state.receipts| < |SortedCases(m)|
    requires BoundExactly(g, SortedCases(m)[|state.receipts|], analysis, dataHash)
    ensures state.manifestRef == manifestRef
    ensures var c := SortedCases(m)[|state.receipts|];
            PrefixReceipts(g, m, state.receipts + [Receipt(c.caseId, c.role, analysis)])
  {
    PrefixGrows(g, m, state.receipts, analysis);
  }

  /** In step with a receipt for every case, the durable run is complete. */
  lemma InStepCompletes(g: Contents, manifestRef: Ref, m: Manifest, current: Option<Ref>, state: ExitRun)
    requires InStep(g, manifestRef, m, current, state) && current.Some? && |state.receipts| == |SortedCases(m)|
    ensures Completes(g, manifestRef, current.value) && Pointer(g, RunSubject(m.manifestId)) == current
    ensures current.value.contentHash.of == RunObject(state)
  {
    CompletedLength(m);
  }

  predicate DuplicatedCases(receipts: seq<Receipt>) {
    exists i, j | 0 <= i < j < |receipts| :: receipts[i].caseId == receipts[j].caseId
  }

  predicate Authorized(m: Manifest, receipts: seq<Receipt>) {
    forall r | r in receipts :: exists c | c in m.cases :: c.caseId == r.caseId && c.role == r.role
  }

  lemma PrefixPassesChecks(g: Contents, m: Manifest, receipts: seq<Receipt>)
    requires PrefixReceipts(g, m, receipts) && m.Valid()
    ensures !DuplicatedCases(receipts) && Authorized(m, receipts)
  {
    SortedCasesProperties(m);
    forall r | r in receipts ensures exists c | c in m.cases :: c.caseId == r.caseId && c.role == r.role {
      var i :| 0 <= i < |receipts| && receipts[i] == r;
      assert SortedCases(m)[i] in m.cases;
    }
  }

  lemma PrefixGrows(g: Contents, m: Manifest, receipts: seq<Receipt>, analysis: AnalysisRef)
    requires PrefixReceipts(g, m, receipts) && |receipts| < |SortedCases(m)|
    requires BoundCase(g, SortedCases(m)[|receipts|], analysis)
    ensures var c := SortedCases(m)[|receipts|];
            PrefixReceipts(g, m, receipts + [Receipt(c.caseId, c.role, analysis)])
  {
  }

  /** For each of these receipts the service has since shown what its case demands. */
  ghost predicate Reverified(log: seq<Seen>, from: nat, m: Manifest, receipts: seq<Receipt>, requireSnapshot: bool) {
    forall i | 0 <= i < |receipts| :: ReceiptVerified(log, from, m, receipts[i], requireSnapshot)
  }

  ghost predicate ReceiptVerified(log: seq<Seen>, from: nat, m: Manifest, r: Receipt, requireSnapshot: bool) {
    exists c | c in m.cases ::
      c.caseId == r.caseId && ServedSince(log, from, Verification, c, r.analysisRef, requireSnapshot)
  }

  /** One more receipt, verified in a longer log. */
  lemma ReverifiedNext(log: seq<Seen>, longer: seq<Seen>, from: nat, m: Manifest, receipts: seq<Receipt>, r: Receipt,
                       c: Case, requireSnapshot: bool)
    requires Reverified(log, from, m, receipts, requireSnapshot) && log <= longer && from <= |log|
    requires c in m.cases && c.caseId == r.caseId
    requires ServedSince(longer, |log|, Verification, c, r.analysisRef, requireSnapshot)
    ensures Reverified(longer, from, m, receipts + [r], requireSnapshot)
  {
    hide Served;
    forall i | 0 <= i < |receipts| ensures ReceiptVerified(longer, from, m, receipts[i], requireSnapshot) {
      assert ReceiptVerified(log, from, m, receipts[i], requireSnapshot);
    }
    assert ServedSince(longer, from, Verification, c, r.analysisRef, requireSnapshot);
  }

  lemma ReverifiedLonger(log: seq<Seen>, longer: seq<Seen>, from: nat, m: Manifest, receipts: seq<Receipt>,
                         requireSnapshot: bool)
    requires Reverified(log, from, m, receipts, requireSnapshot) && log <= longer
    ensures Reverified(longer, from, m, receipts, requireSnapshot)
  {
    hide Served;
    forall i | 0 <= i < |receipts| ensures ReceiptVerified(longer, from, m, receipts[i], requireSnapshot) {
      assert ReceiptVerified(log, from, m, receipts[i], requireSnapshot);
    }
  }

  /** No run of another manifest generation is current. */
  predicate Continues(current: Option<Ref>, manifestRef: Ref) {
    current.Some? && current.value.contentHash.of.RunObject? ==>
      current.value.contentHash.of.run.manifestRef == manifestRef
  }

  /** The cases from the k-th on, in case_id order, can be executed and verified. */
  ghost predicate CasesReady(g: Contents, m: Manifest, k: nat, bindingDataHash: bool) {
    forall i | k <= i < |SortedCases(m)| :: Ready(g, SortedCases(m)[i], bindingDataHash)
  }

  /** What a caller can check before a run that nothing disturbs. */
  ghost predicate Runnable(g: Contents, manifestRef: Ref, bindingDataHash: bool) {
    && manifestRef in g.objects && IsManifest(manifestRef)
    && var m := manifestRef.contentHash.of.manifest;
    && CasesReady(g, m, 0, bindingDataHash)
    && Continues(Pointer(g, RunSubject(m.manifestId)), manifestRef)
  }

  lemma ReadyFrom(g: Contents, m: Manifest, k: nat, bindingDataHash: bool)
    ensures CasesReady(g, m, 0, bindingDataHash) ==> CasesReady(g, m, k, bindingDataHash)
  {
  }

  lemma ReadyNext(g: Contents, m: Manifest, k: nat, bindingDataHash: bool)
    requires k < |SortedCases(m)|
    ensures SortedCases(m)[k] in m.cases
    ensures CasesReady(g, m, k, bindingDataHash) ==> Ready(g, SortedCases(m)[k], bindingDataHash)
  {
    SortedCasesProperties(m);
    assert SortedCases(m)[k] in SortedCases(m);
  }

  /** A case once executed and bound is ready to be verified. */
  lemma BoundIsReady(g: Contents, h: Contents, c: Case, analysis: AnalysisRef, bindingDataHash: bool)
    requires Sound(h) && BoundExactly(h, c, analysis, bindingDataHash) && Progress(g, h)
    ensures Ready(g, c, bindingDataHash) ==> Ready(h, c, bindingDataHash)
  {
    assert SubjectSound(h, AnalysisSubject(c.caseId));
  }

  /** A step moves only the run's pointer and its case's, so the cases after it stay ready. */
  lemma ReadyAfter(g: Contents, h: Contents, m: Manifest, k: nat, bindingDataHash: bool)
    requires m.Valid() && k < |SortedCases(m)| && Progress(g, h)
    requires MovesRun(g, h, m.manifestId, SortedCases(m)[k])
    ensures CasesReady(g, m, k, bindingDataHash) ==> CasesReady(h, m, k + 1, bindingDataHash)
  {
    if CasesReady(g, m, k, bindingDataHash) {
      SortedIdsDistinct(m);
      hide Progress, SortedCases, Ready;
      forall i | k < i < |SortedCases(m)| ensures Ready(h, SortedCases(m)[i], bindingDataHash) {
        var c := SortedCases(m)[i];
        OtherPointer(g, h, m.manifestId, SortedCases(m)[k], c);
        ReadyStays(g, h, c, bindingDataHash);
      }
    }
  }

  ghost predicate MovesRun(g: Contents, h: Contents, id: string, c: Case) {
    var moved := {RunSubject(id), AnalysisSubject(c.caseId)};
    h.current - moved == g.current - moved
  }

  lemma MovesOwn(g: Contents, h: Contents, id: string, c: Case)
    requires OnlyMoves(g, h, c)
    ensures MovesRun(g, h, id, c)
  {
    var own, run := {AnalysisSubject(c.caseId)}, {RunSubject(id)};
    assert h.current - {RunSubject(id), AnalysisSubject(c.caseId)} == (h.current - own) - run;
    assert g.current - {RunSubject(id), AnalysisSubject(c.caseId)} == (g.current - own) - run;
  }

  lemma MovesBoth(g: Contents, h: Contents, k: Contents, id: string, c: Case)
    requires MovesRun(g, h, id, c) && k.current - {RunSubject(id)} == h.current - {RunSubject(id)}
    ensures MovesRun(g, k, id, c)
  {
    var own, run := {AnalysisSubject(c.caseId)}, {RunSubject(id)};
    assert k.current - {RunSubject(id), AnalysisSubject(c.caseId)} == (k.current - run) - own;
    assert h.current - {RunSubject(id), AnalysisSubject(c.caseId)} == (h.current - run) - own;
  }

  lemma OtherPointer(g: Contents, h: Contents, id: string, c: Case, other: Case)
    requires MovesRun(g, h, id, c) && other.caseId != c.caseId
    ensures Pointer(h, AnalysisSubject(other.caseId)) == Pointer(g, AnalysisSubject(other.caseId))
  {
    var s, moved := AnalysisSubject(other.caseId), {RunSubject(id), AnalysisSubject(c.caseId)};
    assert s in h.current <==> s in (h.current - moved);
    assert s in g.current <==> s in (g.current - moved);
  }

  /** A receipt already there is of a case whose binding is exactly its analysis. */
  lemma ReceiptReady(g: Contents, manifestRef: Ref, m: Manifest, current: Option<Ref>, state: ExitRun, i: nat,
                     bindingDataHash: bool)
    requires InStep(g, manifestRef, m, current, state) && i < |state.receipts| && Sound(g)
    ensures i < |SortedCases(m)| && SortedCases(m)[i] in m.cases && SortedCases(m)[i].caseId == state.receipts[i].caseId
    ensures CasesReady(g, m, 0, bindingDataHash) ==>
              && Ready(g, SortedCases(m)[i], bindingDataHash)
              && BoundExactly(g, SortedCases(m)[i], state.receipts[i].analysisRef, bindingDataHash)
    ensures forall c | c in m.cases && c.caseId == state.receipts[i].caseId :: c == SortedCases(m)[i]
  {
    var c := SortedCases(m)[i];
    SortedCasesProperties(m);
    assert c in SortedCases(m);
    assert BoundCase(g, c, state.receipts[i].analysisRef);
    forall d | d in m.cases && d.caseId == c.caseId ensures d == c {
      var p :| 0 <= p < |m.cases| && m.cases[p] == d;
      var q :| 0 <= q < |m.cases| && m.cases[q] == c;
      assert p == q;
    }
  }

  class ResumableExitRunner {
    const registry: Registry
    const executor: RegistryAnalysisExecutor

    constructor (registry: Registry, executor: RegistryAnalysisExecutor)
      requires executor.registry == registry
      ensures this.registry == registry && this.executor == executor
    {
      this.registry, this.executor := registry, executor;
    }

    ghost predicate Valid()
    {
      executor.registry == registry
    }

    /** The state to resume from.  Of the three checks only the manifest
        generation can fail on a sound registry. */
    method State(current: Option<Ref>, manifestRef: Ref, m: Manifest) returns (e: Exit<ExitRun>)
      requires Sound(registry.contents) && manifestRef.contentHash.of == ManifestObject(m) && m.Valid()
      requires Pointer(registry.contents, RunSubject(m.manifestId)) == current
      modifies registry`disturbances
      ensures old(registry.disturbances) <= registry.disturbances
      ensures registry.Calm() && Continues(current, manifestRef) ==> e.Done?
      ensures e.Done? ==> InStep(registry.contents, manifestRef, m, current, e.value) && Continues(current, manifestRef)
      ensures e.Raised? ==> e.fault in {StorageError, StaleGeneration} && Possible(e.fault)
    {
      if current.None? {
        return Done(ExitRun(manifestRef, []));
      }
      assert SubjectSound(registry.contents, RunSubject(m.manifestId));
      var payload :- registry.Load(current.value);
      if !payload.RunObject? {
        return Raised(WrongModel);
      }
      var state := payload.run;
      if state.manifestRef != manifestRef {
        return Raised(StaleGeneration);
      }
      PrefixPassesChecks(registry.contents, m, state.receipts);
      if DuplicatedCases(state.receipts) {
        return Raised(DuplicatedReceipts);
      }
      if !Authorized(m, state.receipts) {
        return Raised(UnauthorizedReceipt);
      }
      return Done(state);
    }

    /** Execute, verify, record and publish one case, under the run's lock. */
    method Step(manifestRef: Ref, m: Manifest, case_: Case, current: Option<Ref>, state: ExitRun)
      returns (e: Exit<(Ref, ExitRun)>)
      requires Valid() && Sound(registry.contents) && InStep(registry.contents, manifestRef, m, current, state)
      requires registry.locks == {RunSubject(m.manifestId)}
      requires |state.receipts| < |SortedCases(m)| && case_ == SortedCases(m)[|state.receipts|]
      modifies registry, executor.service
      ensures Kept(old(ViewOf(registry)), ViewOf(registry), {})
      ensures executor.Onward()
      ensures registry.Calm() ==> MovesRun(old(registry.contents), registry.contents, m.manifestId, case_)
      ensures executor.Smooth() && Ready(old(registry.contents), case_, executor.bindingDataHash) ==> e.Done?
      ensures e.Raised? ==> Possible(e.fault)
      ensures e.Done? ==> InStep(registry.contents, manifestRef, m, Some(e.value.0), e.value.1)
      ensures e.Done? ==> |e.value.1.receipts| == |state.receipts| + 1 && state.receipts <= e.value.1.receipts
      ensures e.Done? ==> e.value.1.receipts[|state.receipts|].caseId == case_.caseId
      ensures e.Done? ==>
                ServedSince(executor.service.seen, |old(executor.service.seen)|, Verification, case_,
                            e.value.1.receipts[|state.receipts|].analysisRef, executor.requireSnapshot)
    {
      hide PrefixReceipts, SubjectSound, SortedCases, Interference, KeepsToLocks, BoundExactly, InStep, Served;
      hide Ready, DescribedBy, Authentic, MovesRun, OnlyMoves;
      ghost var u, locks := ViewOf(registry), registry.locks;
      var executed := executor.Execute(case_);
      ghost var v := ViewOf(registry);
      InStepKept(u, v, manifestRef, m, current, state);
      KeptFewer(u, v, locks, {});
      if registry.Calm() {
        MovesOwn(u.contents, v.contents, m.manifestId, case_);
      }
      if executed.IsFailure() {
        return executed.PropagateFailure();
      }
      var analysis := executed.value;
      KeptMeans(u, v, locks);
      BoundIsReady(u.contents, v.contents, case_, analysis, executor.bindingDataHash);
      var verified := executor.Verify(case_, analysis);
      ghost var w := ViewOf(registry);
      KeptThen(u, v, w, {}, locks);
      var _ :- verified;
      InStepKept(v, w, manifestRef, m, current, state);
      ReceiptFits(w.contents, manifestRef, m, current, state, analysis, executor.bindingDataHash);
      var next := ExitRun(manifestRef, state.receipts + [Receipt(case_.caseId, case_.role, analysis)]);
      e := PublishNext(manifestRef, m, current, state, next);
      KeptThen(u, w, ViewOf(registry), {}, {});
      if registry.Calm() {
        MovesBoth(u.contents, w.contents, registry.contents, m.manifestId, case_);
      }
    }

    /** Publish the extended run and move the pointer to it. */
    method PublishNext(manifestRef: Ref, m: Manifest, current: Option<Ref>, state: ExitRun, next: ExitRun)
      returns (e: Exit<(Ref, ExitRun)>)
      requires Sound(registry.contents) && InStep(registry.contents, manifestRef, m, current, state)
      requires registry.locks == {RunSubject(m.manifestId)}
      requires next.manifestRef == manifestRef && state.receipts <= next.receipts
      requires PrefixReceipts(registry.contents, m, next.receipts)
      modifies registry`contents, registry`writes, registry`disturbances
      ensures Kept(old(ViewOf(registry)), ViewOf(registry), {})
      ensures old(registry.disturbances) <= registry.disturbances && (registry.Calm() ==> e.Done?)
      ensures registry.Calm() ==>
                var g, h, s := old(registry.contents), registry.contents, RunSubject(m.manifestId);
                (forall r | r in g.objects :: r in h.objects) && h.current - {s} == g.current - {s}
      ensures e.Raised? ==> Possible(e.fault)
      ensures e.Done? ==> e.value.1 == next && InStep(registry.contents, manifestRef, m, Some(e.value.0), next)
    {
      hide Kept, Interference, Progress, SubjectSound, PrefixReceipts;
      var subject := RunSubject(m.manifestId);
      ghost var u, locks := ViewOf(registry), registry.locks;
      var published := registry.Publish(subject, RunObject(next), |next.receipts| + 1);
      ghost var v := ViewOf(registry);
      PublishKept(u, v, {});
      if published.IsFailure() {
        return published.PropagateFailure();
      }
      var reference := published.value;
      Yield(registry, u, {});
      ghost var w := ViewOf(registry);
      KeptMeans(v, w, locks);
      KeptMeans(u, w, {});
      ObjectStays(v.contents, w.contents, reference);
      PrefixStays(u.contents, w.contents, m, next.receipts);
      assert Pointer(w.contents, subject) == current;
      var moved := registry.SetCurrent(subject, reference);
      ghost var x := ViewOf(registry);
      RunMovedKept(w, x, m.manifestId, reference);
      KeptThen(u, w, x, {}, locks - {subject});
      if moved.IsFailure() {
        return moved.PropagateFailure();
      }
      return Done((reference, next));
    }

    /** Resume or execute one exact manifest, under the lock of its run. */
    method Run(manifestRef: Ref) returns (e: Exit<Ref>)
      requires Valid() && Sound(registry.contents) && registry.locks == {}
      modifies registry, executor.service
      ensures Kept(old(ViewOf(registry)), ViewOf(registry), {})
      ensures executor.Onward()
      ensures e.Raised? ==> Possible(e.fault)
      ensures e.Done? ==> Completes(registry.contents, manifestRef, e.value)
      ensures e.Done? ==>
                Pointer(registry.contents, RunSubject(manifestRef.contentHash.of.manifest.manifestId)) == Some(e.value)
      ensures e.Done? ==>
                Reverified(executor.service.seen, |old(executor.service.seen)|, manifestRef.contentHash.of.manifest,
                           e.value.contentHash.of.run.receipts, executor.requireSnapshot)
      ensures executor.Smooth() && Runnable(old(registry.contents), manifestRef, executor.bindingDataHash) ==> e.Done?
    {
      hide PrefixReceipts, SubjectSound, Interference, KeepsToLocks, Reverified, Completes, CasesReady;
      ghost var u := ViewOf(registry);
      KeptItself(u, {});
      var payload :- registry.Load(manifestRef);
      if !payload.ManifestObject? || !payload.manifest.Valid() {
        return Raised(WrongModel);
      }
      var m := payload.manifest;
      var subject := RunSubject(m.manifestId);
      Yield(registry, u, {});
      ghost var v := ViewOf(registry);
      var _ :- registry.Acquire(subject);
      e := RunLocked(manifestRef, m);
      ghost var w := ViewOf(registry);
      registry.Release(subject);
      KeptLocked(v, w, subject, {});
      KeptThen(u, v, ViewOf(registry), {}, {});
    }

    method RunLocked(manifestRef: Ref, m: Manifest) returns (e: Exit<Ref>)
      requires Valid() && Sound(registry.contents) && registry.locks == {RunSubject(m.manifestId)}
      requires manifestRef.contentHash.of == ManifestObject(m) && m.Valid()
      modifies registry, executor.service
      ensures Kept(old(ViewOf(registry)), ViewOf(registry), {})
      ensures executor.Onward()
      ensures e.Raised? ==> Possible(e.fault)
      ensures e.Done? ==> Completes(registry.contents, manifestRef, e.value)
      ensures e.Done? ==> Pointer(registry.contents, RunSubject(m.manifestId)) == Some(e.value)
      ensures e.Done? ==>
                Reverified(executor.service.seen, |old(executor.service.seen)|, m,
                           e.value.contentHash.of.run.receipts, executor.requireSnapshot)
      ensures executor.Smooth() && CasesReady(old(registry.contents), m, 0, executor.bindingDataHash) ==>
                Continues(Pointer(old(registry.contents), RunSubject(m.manifestId)), manifestRef) ==> e.Done?
    {
      hide SubjectSound, SortedCases, Interference, KeepsToLocks, InStep, Authentic, Progress, Completes, Reverified;
      hide CasesReady, Served;
      ghost var u, log := ViewOf(registry), executor.service.seen;
      var resumed := Resume(manifestRef, m);
      ghost var v := ViewOf(registry);
      KeptFewer(u, v, registry.locks, {});
      var pair :- resumed;
      KeptMeans(u, v, {});
      ReadyFrom(u.contents, m, |pair.1.receipts|, executor.bindingDataHash);
      var ran := RunCases(manifestRef, m, pair.0, pair.1, |log|);
      ghost var w := ViewOf(registry);
      KeptThen(u, v, w, {}, {});
      var run :- ran;
      var current, state := run.0, run.1;
      if current.None? {
        InStepReceipts(w.contents, manifestRef, m, current, state);
        var published := PublishNext(manifestRef, m, current, state, state);
        KeptThen(u, w, ViewOf(registry), {}, {});
        var first :- published;
        InStepCompletes(registry.contents, manifestRef, m, Some(first.0), state);
        return Done(first.0);
      }
      InStepCompletes(registry.contents, manifestRef, m, current, state);
      return Done(current.value);
    }

    /** One step, as the loop over cases sees it. */
    method NextCase(manifestRef: Ref, m: Manifest, case_: Case, current: Option<Ref>, state: ExitRun, ghost from: nat)
      returns (e: Exit<(Ref, ExitRun)>)
      requires Valid() && Sound(registry.contents) && InStep(registry.contents, manifestRef, m, current, state)
      requires registry.locks == {RunSubject(m.manifestId)} && m.Valid() && from <= |executor.service.seen|
      requires |state.receipts| < |SortedCases(m)| && case_ == SortedCases(m)[|state.receipts|]
      requires Reverified(executor.service.seen, from, m, state.receipts, executor.requireSnapshot)
      modifies registry, executor.service
      ensures Kept(old(ViewOf(registry)), ViewOf(registry), {}) && executor.Onward()
      ensures e.Raised? ==> Possible(e.fault)
      ensures e.Done? ==> InStep(registry.contents, manifestRef, m, Some(e.value.0), e.value.1)
      ensures e.Done? ==> |e.value.1.receipts| == |state.receipts| + 1
      ensures e.Done? ==>
                Reverified(executor.service.seen, from, m, e.value.1.receipts, executor.requireSnapshot)
      ensures registry.Calm() && CasesReady(old(registry.contents), m, |state.receipts|, executor.bindingDataHash) ==>
                CasesReady(registry.contents, m, |state.receipts| + 1, executor.bindingDataHash)
      ensures executor.Smooth() ==>
                CasesReady(old(registry.contents), m, |state.receipts|, executor.bindingDataHash) ==> e.Done?
    {
      hide SubjectSound, SortedCases, Interference, KeepsToLocks, InStep, Authentic, Progress, Reverified, CasesReady;
      hide ServedSince, MovesRun;
      ghost var v, log, i := ViewOf(registry), executor.service.seen, |state.receipts|;
      ReadyNext(v.contents, m, i, executor.bindingDataHash);
      e := Step(manifestRef, m, case_, current, state);
      ghost var w := ViewOf(registry);
      KeptMeans(v, w, {});
      if registry.Calm() {
        ReadyAfter(v.contents, w.contents, m, i, executor.bindingDataHash);
      }
      var next :- e;
      var receipts := next.1.receipts;
      ReverifiedNext(log, executor.service.seen, from, m, state.receipts, receipts[i], case_, executor.requireSnapshot);
      assert receipts == state.receipts + [receipts[i]];
    }

    /** The loop over the manifest's cases, in case_id order. */
    method RunCases(manifestRef: Ref, m: Manifest, before: Option<Ref>, resumed: ExitRun, ghost from: nat)
      returns (e: Exit<(Option<Ref>, ExitRun)>)
      requires Valid() && Sound(registry.contents) && InStep(registry.contents, manifestRef, m, before, resumed)
      requires registry.locks == {RunSubject(m.manifestId)} && m.Valid() && from <= |executor.service.seen|
      requires Reverified(executor.service.seen, from, m, resumed.receipts, executor.requireSnapshot)
      modifies registry, executor.service
      ensures Kept(old(ViewOf(registry)), ViewOf(registry), {})
      ensures executor.Onward()
      ensures e.Raised? ==> Possible(e.fault)
      ensures e.Done? ==> InStep(registry.contents, manifestRef, m, e.value.0, e.value.1)
      ensures e.Done? ==> |e.value.1.receipts| == |SortedCases(m)|
      ensures e.Done? ==>
                Reverified(executor.service.seen, from, m, e.value.1.receipts, executor.requireSnapshot)
      ensures executor.Smooth() ==>
                CasesReady(old(registry.contents), m, |resumed.receipts|, executor.bindingDataHash) ==> e.Done?
    {
      hide SubjectSound, SortedCases, Interference, KeepsToLocks, InStep, Authentic, Progress, Reverified;
      hide CasesReady, Served, Kept, CompletedTo;
      ghost var u := ViewOf(registry);
      KeptItself(u, {});
      var current, state := before, resumed;
      var completed := CompletedCases(state.receipts);
      InStepBounded(registry.contents, manifestRef, m, current, state);
      var cases := SortedCases(m);
      CompletedStart(completed, cases, state.receipts);
      for i := 0 to |cases|
        invariant Kept(u, ViewOf(registry), {}) && InStep(registry.contents, manifestRef, m, current, state)
        invariant Sound(registry.contents) && registry.locks == u.locks && executor.Onward()
        invariant Reverified(executor.service.seen, from, m, state.receipts, executor.requireSnapshot)
        invariant i <= |state.receipts|
        invariant CompletedTo(completed.Keys, cases, |state.receipts|)
        invariant registry.Calm() && CasesReady(u.contents, m, |resumed.receipts|, executor.bindingDataHash) ==>
                    CasesReady(registry.contents, m, |state.receipts|, executor.bindingDataHash)
      {
        var case_ := cases[i];
        InStepBounded(registry.contents, manifestRef, m, current, state);
        CompletedExactly(completed.Keys, m, |state.receipts|, i);
        if case_.caseId in completed {
          continue;
        }
        ghost var v, ids := ViewOf(registry), completed.Keys;
        var stepped := NextCase(manifestRef, m, case_, current, state, from);
        KeptThen(u, v, ViewOf(registry), {}, {});
        KeptMeans(v, ViewOf(registry), {});
        var next :- stepped;
        current, state := Some(next.0), next.1;
        CompletedNext(ids, cases, i);
        completed := completed[case_.caseId := state.receipts[i]];
        assert completed.Keys == ids + {case_.caseId};
      }
      InStepBounded(registry.contents, manifestRef, m, current, state);
      return Done((current, state));
    }

    /** The run to continue, with the analyses of all its receipts verified. */
    method Resume(manifestRef: Ref, m: Manifest) returns (e: Exit<(Option<Ref>, ExitRun)>)
      requires Valid() && Sound(registry.contents) && registry.locks == {RunSubject(m.manifestId)}
      requires manifestRef.contentHash.of == ManifestObject(m) && m.Valid()
      modifies registry`contents, registry`disturbances, executor.service`seen
      ensures Kept(old(ViewOf(registry)), ViewOf(registry), registry.locks)
      ensures executor.Onward() && (registry.Calm() ==> registry.contents == old(registry.contents))
      ensures e.Raised? ==> Possible(e.fault)
      ensures e.Done? ==> InStep(registry.contents, manifestRef, m, e.value.0, e.value.1)
      ensures e.Done? ==>
                Reverified(executor.service.seen, |old(executor.service.seen)|, m, e.value.1.receipts,
                           executor.requireSnapshot)
      ensures executor.Smooth() && CasesReady(old(registry.contents), m, 0, executor.bindingDataHash) ==>
                Continues(Pointer(old(registry.contents), RunSubject(m.manifestId)), manifestRef) ==> e.Done?
    {
      hide PrefixReceipts, SubjectSound, Interference, KeepsToLocks, InStep, CasesReady, Reverified;
      ghost var u, locks := ViewOf(registry), registry.locks;
      KeptItself(u, locks);
      Yield(registry, u, locks);
      ghost var before := ViewOf(registry);
      var current :- registry.Current(RunSubject(m.manifestId));
      Yield(registry, u, locks);
      ghost var v := ViewOf(registry);
      KeptMeans(before, v, locks);
      var state :- State(current, manifestRef, m);
      var reopened := VerifyReceipts(manifestRef, m, current, state);
      KeptThen(u, v, ViewOf(registry), locks, locks);
      var _ :- reopened;
      InStepKept(v, ViewOf(registry), manifestRef, m, current, state);
      return Done((current, state));
    }

    /** Verify the analyses of the receipts already there. */
    method VerifyReceipts(ghost manifestRef: Ref, m: Manifest, ghost current: Option<Ref>, state: ExitRun)
      returns (e: Exit<()>)
      requires Valid() && Sound(registry.contents) && InStep(registry.contents, manifestRef, m, current, state)
      requires registry.locks == {RunSubject(m.manifestId)}
      modifies registry`contents, registry`disturbances, executor.service`seen
      ensures Kept(old(ViewOf(registry)), ViewOf(registry), registry.locks)
      ensures executor.Onward() && (registry.Calm() ==> registry.contents == old(registry.contents))
      ensures e.Raised? ==> Possible(e.fault)
      ensures e.Done? ==>
                Reverified(executor.service.seen, |old(executor.service.seen)|, m, state.receipts,
                           executor.requireSnapshot)
      ensures executor.Smooth() && CasesReady(old(registry.contents), m, 0, executor.bindingDataHash) ==> e.Done?
    {
      hide Interference, KeepsToLocks, BoundExactly, SubjectSound, InStep, CasesReady, Served;
      ghost var u, locks, from := ViewOf(registry), registry.locks, |executor.service.seen|;
      KeptItself(u, locks);
      for i := 0 to |state.receipts|
        invariant Kept(u, ViewOf(registry), locks) && InStep(registry.contents, manifestRef, m, current, state)
        invariant executor.Onward() && (registry.Calm() ==> registry.contents == u.contents)
        invariant Reverified(executor.service.seen, from, m, state.receipts[..i], executor.requireSnapshot)
      {
        KeptMeans(u, ViewOf(registry), locks);
        ReceiptReady(registry.contents, manifestRef, m, current, state, i, executor.bindingDataHash);
        var case_ := CaseById(m, state.receipts[i].caseId);
        ghost var before, log := ViewOf(registry), executor.service.seen;
        var verified := executor.Verify(case_, state.receipts[i].analysisRef);
        KeptThen(u, before, ViewOf(registry), locks, locks);
        InStepKept(before, ViewOf(registry), manifestRef, m, current, state);
        var _ :- verified;
        ReverifiedNext(log, executor.service.seen, from, m, state.receipts[..i], state.receipts[i], case_,
                       executor.requireSnapshot);
        assert state.receipts[..i + 1] == state.receipts[..i] + [state.receipts[i]];
      }
      assert state.receipts[..|state.receipts|] == state.receipts;
      return Done(());
    }

    /** The receipts by case id. */
    method CompletedCases(receipts: seq<Receipt>) returns (completed: map<string, Receipt>)
      ensures forall id :: id in completed <==> exists k | 0 <= k < |receipts| :: receipts[k].caseId == id
    {
      completed := map[];
      for i := 0 to |receipts|
        invariant forall id :: id in completed <==> exists k | 0 <= k < i :: receipts[k].caseId == id
      {
        completed := completed[receipts[i].caseId := receipts[i]];
      }
    }

    /** The case of a receipt: there always is one. */
    method CaseById(m: Manifest, caseId: string) returns (c: Case)
      requires exists c | c in m.cases :: c.caseId == caseId
      ensures c in m.cases && c.caseId == caseId
    {
      for i := 0 to |m.cases|
        invariant forall k | 0 <= k < i :: m.cases[k].caseId != caseId
      {
        if m.cases[i].caseId == caseId {
          return m.cases[i];
        }
      }
      assert false;
    }
  }

  /** The ids seen are those of the first n cases. */
  ghost predicate CompletedTo(ids: set<string>, cases: seq<Case>, n: nat) {
    n <= |cases| && forall id :: id in ids <==> exists k | 0 <= k < n :: cases[k].caseId == id
  }

  lemma CompletedStart(completed: map<string, Receipt>, cases: seq<Case>, receipts: seq<Receipt>)
    requires forall id :: id in completed <==> exists k | 0 <= k < |receipts| :: receipts[k].caseId == id
    requires |receipts| <= |cases| && forall k | 0 <= k < |receipts| :: receipts[k].caseId == cases[k].caseId
    ensures CompletedTo(completed.Keys, cases, |receipts|)
  {
  }

  lemma CompletedExactly(ids: set<string>, m: Manifest, n: nat, i: nat)
    requires CompletedTo(ids, SortedCases(m), n) && m.Valid() && i < |SortedCases(m)|
    ensures SortedCases(m)[i].caseId in ids <==> i < n
  {
    SortedIdsDistinct(m);
  }

  lemma CompletedNext(ids: set<string>, cases: seq<Case>, n: nat)
    requires CompletedTo(ids, cases, n) && n < |cases|
    ensures CompletedTo(ids + {cases[n].caseId}, cases, n + 1)
  {
  }

  lemma SoundIsAuthentic(g: Contents)
    requires Sound(g)
    ensures Authentic(g)
  {
  }

  lemma SortedIdsDistinct(m: Manifest)
    requires m.Valid()
    ensures forall i, j | 0 <= i < j < |SortedCases(m)| :: SortedCases(m)[i].caseId != SortedCases(m)[j].caseId
  {
    SortedCasesProperties(m);
  }

  lemma CompletedLength(m: Manifest)
    ensures |SortedCases(m)| == |m.cases|
  {
    SortedCasesProperties(m);
  }

  lemma InStepBounded(g: Contents, manifestRef: Ref, m: Manifest, current: Option<Ref>, state: ExitRun)
    requires InStep(g, manifestRef, m, current, state)
    ensures |state.receipts| <= |SortedCases(m)|
    ensures forall i | 0 <= i < |state.receipts| :: state.receipts[i].caseId == SortedCases(m)[i].caseId
  {
  }

  lemma InputPointerUnchanged(g: Contents, h: Contents)
    requires Sound(g) && Authentic(h) && Progress(g, h) && h.current == g.current
    ensures Sound(h)
  {
    SoundAfterPointer(g, h, Input(""));
  }

  lemma PointerSound(g: Contents, h: Contents, s: Subject, reference: Ref)
    requires Sound(g) && Authentic(h) && Progress(g, h) && s.RunSubject?
    requires h.current == g.current || h.current == g.current[s := reference]
    requires RunSound(h, s.id, reference)
    ensures Sound(h)
  {
    if h.current == g.current {
      forall t | t in h.current ensures SubjectSound(h, t) {
        assert SubjectSound(g, t);
        if t.RunSubject? {
          var run := h.current[t].contentHash.of.run;
          PrefixStays(g, h, run.manifestRef.contentHash.of.manifest, run.receipts);
        }
      }
    } else {
      SoundAfterPointer(g, h, s);
    }
  }

  // -------------------------------------------------------------------- whole runs

  /** A completed run is final: no later progress moves its pointer. */
  lemma CompletedRunStays(g: Contents, h: Contents, manifestRef: Ref, runRef: Ref)
    requires Sound(g) && Sound(h) && Progress(g, h) && Completes(g, manifestRef, runRef)
    requires Pointer(g, RunSubject(manifestRef.contentHash.of.manifest.manifestId)) == Some(runRef)
    ensures Completes(h, manifestRef, runRef)
    ensures Pointer(h, RunSubject(manifestRef.contentHash.of.manifest.manifestId)) == Some(runRef)
  {
    var m := manifestRef.contentHash.of.manifest;
    var s := RunSubject(m.manifestId);
    assert SubjectSound(g, s) && SubjectSound(h, s);
    assert RunExtends(g.current[s], h.current[s]);
    PrefixStays(g, h, m, runRef.contentHash.of.run.receipts);
    var p, q := runRef.contentHash.of.run, h.current[s].contentHash.of.run;
    CompletedLength(m);
    assert p.receipts == q.receipts;
    assert runRef.contentHash == Sha256(RunObject(p)) && h.current[s].contentHash == Sha256(RunObject(q));
  }

  datatype Session = Session(manifestRef: Ref, requireSnapshot: bool, bindingDataHash: bool)

  /** The run is complete and is the manifest's current one. */
  ghost predicate Final(g: Contents, manifestRef: Ref, runRef: Ref) {
    Completes(g, manifestRef, runRef) &&
    Pointer(g, RunSubject(manifestRef.contentHash.of.manifest.manifestId)) == Some(runRef)
  }

  lemma FinalStays(u: View, v: View, manifestRef: Ref, runRef: Ref)
    requires Sound(u.contents) && Kept(u, v, {}) && Final(u.contents, manifestRef, runRef)
    ensures Final(v.contents, manifestRef, runRef)
  {
    CompletedRunStays(u.contents, v.contents, manifestRef, runRef);
  }

  /** What one session leaves: its own result, whatever others do before and during it. */
  method RunSession(registry: Registry, service: AnalysisService, session: Session) returns (e: Exit<Ref>)
    requires Sound(registry.contents) && registry.locks == {}
    modifies registry, service
    ensures Kept(old(ViewOf(registry)), ViewOf(registry), {})
    ensures e.Done? ==> Final(registry.contents, session.manifestRef, e.value)
    ensures e.Raised? ==> Possible(e.fault)
  {
    hide PrefixReceipts, SubjectSound, Interference, KeepsToLocks, Reverified, Runnable;
    ghost var u := ViewOf(registry);
    KeptItself(u, {});
    Yield(registry, u, {});
    ghost var v := ViewOf(registry);
    var executor := new RegistryAnalysisExecutor(registry, service, session.requireSnapshot, session.bindingDataHash);
    var runner := new ResumableExitRunner(registry, executor);
    e := runner.Run(session.manifestRef);
    KeptThen(u, v, ViewOf(registry), {}, {});
  }

  /** Any sequence of runs over one registry, each cut short anywhere by a crash
      or a failure, with other processes at work throughout.  Everything this process
      itself wrote moved only pointers whose locks it held. */
  method Campaign(registry: Registry, service: AnalysisService, sessions: seq<Session>)
    returns (exits: seq<Exit<Ref>>)
    requires Sound(registry.contents) && registry.locks == {}
    modifies registry, service
    ensures |exits| == |sessions|
    ensures Kept(old(ViewOf(registry)), ViewOf(registry), {})
    ensures forall i | 0 <= i < |sessions| && exits[i].Done? ::
              Final(registry.contents, sessions[i].manifestRef, exits[i].value)
    ensures forall i, j | 0 <= i < j < |sessions| && exits[i].Done? && exits[j].Done? &&
                          sessions[i].manifestRef == sessions[j].manifestRef :: exits[i] == exits[j]
    ensures forall i | 0 <= i < |sessions| && exits[i].Raised? :: Possible(exits[i].fault)
  {
    hide Interference, KeepsToLocks, Kept, Final;
    ghost var u := ViewOf(registry);
    KeptItself(u, {});
    KeptMeans(u, u, {});
    hide Sound, Progress, Authentic;
    exits := [];
    for k := 0 to |sessions|
      invariant |exits| == k
      invariant registry.locks == {} && Kept(u, ViewOf(registry), {}) && Sound(registry.contents)
      invariant forall i | 0 <= i < k && exits[i].Done? ::
                  Final(registry.contents, sessions[i].manifestRef, exits[i].value)
      invariant forall i | 0 <= i < k && exits[i].Raised? :: Possible(exits[i].fault)
    {
      ghost var v := ViewOf(registry);
      var e := RunSession(registry, service, sessions[k]);
      ghost var w := ViewOf(registry);
      KeptThen(u, v, w, {}, {});
      KeptMeans(v, w, {});
      forall i | 0 <= i < k && exits[i].Done? ensures Final(w.contents, sessions[i].manifestRef, exits[i].value) {
        FinalStays(v, w, sessions[i].manifestRef, exits[i].value);
      }
      exits := exits + [e];
    }
    forall i, j | 0 <= i < j < |sessions| && exits[i].Done? && exits[j].Done? &&
                  sessions[i].manifestRef == sessions[j].manifestRef
      ensures exits[i] == exits[j]
    {
      FinalUnique(registry.contents, sessions[i].manifestRef, exits[i].value, exits[j].value);
    }
  }

  lemma FinalUnique(g: Contents, manifestRef: Ref, runRef: Ref, other: Ref)
    requires Final(g, manifestRef, runRef) && Final(g, manifestRef, other)
    ensures runRef == other
  {
  }
}
