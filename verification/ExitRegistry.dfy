/** The content-addressed registry behind the exit runs
    (src/envresearch/econometrics/exit_registry.py, _store_files.py lines 81-90). */
module ExitRegistry {
  import opened Endings
  import opened Options

  // ------------------------------------------------------------------ outcomes

  datatype Fault =
    | StorageError | NotFound | HashMismatch | Collision | WrongModel | Foreign
    | StaleGeneration | DuplicatedReceipts | UnauthorizedReceipt
    | CaseMismatch | DataNotBound | BindingMissing | BindingStale | Rejected

  /** Faults the source checks for that a sound registry never shows. */
  predicate Possible(f: Fault) {
    f !in {HashMismatch, Collision, DuplicatedReceipts, UnauthorizedReceipt}
  }

  type Exit<T> = Ending<T, Fault>

  // ------------------------------------------------------------------- objects

  /** A digest carries the object it was taken of: equal digests, equal objects. */
  datatype Digest = Sha256(of: Payload)

  datatype Ref = Ref(artifactId: Subject, version: nat, contentHash: Digest)

  /** Pointer and artifact names; the source's prefixes keep the kinds apart. */
  datatype Subject =
    | RunSubject(id: string) | AnalysisSubject(id: string) | BindingArtifact(id: string) | Input(id: string)

  datatype Role = Green | AssumptionFailure | IntegrityFailure

  datatype Case = Case(caseId: string, family: string, role: Role, caseRef: Ref, dataRef: Ref)

  datatype CaseInput = CaseInput(caseId: string, family: string, dataRef: Ref, dataPath: Ref, mutated: bool)

  datatype Manifest = Manifest(manifestId: string, cases: seq<Case>) {
    /** The manifest model's uniqueness validator. */
    predicate Valid() {
      forall i, j | 0 <= i < j < |cases| :: cases[i].caseId != cases[j].caseId
    }
  }

  /** A local analysis reference, opaque to the runner. */
  type AnalysisRef = nat

  datatype Receipt = Receipt(caseId: string, role: Role, analysisRef: AnalysisRef)

  datatype ExitRun = ExitRun(manifestRef: Ref, receipts: seq<Receipt>)

  datatype Binding = Binding(caseRef: Ref, analysisRef: AnalysisRef, dataHash: Option<Digest>)

  datatype Payload =
    | ManifestObject(manifest: Manifest)
    | CaseObject(input: CaseInput)
    | RunObject(run: ExitRun)
    | BindingObject(binding: Binding)
    | DataObject(bytes: seq<int>)

  datatype Contents = Contents(objects: map<Ref, Payload>, current: map<Subject, Ref>)

  function Pointer(g: Contents, s: Subject): Option<Ref> {
    if s in g.current then Some(g.current[s]) else None
  }

  /** Every stored object is the one its name says. */
  predicate Authentic(g: Contents) {
    && (forall r | r in g.objects :: g.objects[r] == r.contentHash.of)
    && (forall s | s in g.current :: g.current[s] in g.objects)
  }

  /** One change this process makes, with the locks it holds at that moment. */
  datatype Write = Write(before: Contents, after: Contents, locks: set<Subject>)

  /** A lock may be waited for while holding none, or an analysis lock while holding
      run locks. */
  predicate MayWait(locks: set<Subject>, subject: Subject) {
    subject !in locks && forall s | s in locks :: s.RunSubject? && subject.AnalysisSubject?
  }

  /** Processes that wait in this order never wait for each other in a circle. */
  lemma NoWaitingCycle(locks: seq<set<Subject>>, wanted: seq<Subject>)
    requires |locks| == |wanted| > 0
    requires forall i | 0 <= i < |locks| :: MayWait(locks[i], wanted[i])
    ensures exists i :: 0 <= i < |locks| && wanted[i] !in locks[(i + 1) % |locks|]
  {
    var n := |locks|;
    var j := 1 % n;
    assert MayWait(locks[j], wanted[j]) && MayWait(locks[(j + 1) % n], wanted[(j + 1) % n]);
    assert wanted[0] in locks[j] ==> wanted[j] !in locks[(j + 1) % n];
  }

  class Registry {
    var contents: Contents
    /** The locks this process holds. */
    var locks: set<Subject>
    /** Every change this process has made, in order. */
    ghost var writes: seq<Write>
    /** Crashes, operating-system errors and other processes' changes so far. */
    ghost var disturbances: nat

    constructor (initial: Contents)
      ensures contents == initial && locks == {} && writes == []
    {
      contents, locks, writes, disturbances := initial, {}, [], 0;
    }

    /** Nothing has gone wrong or been changed by others since. */
    twostate predicate Calm()
      reads this
    {
      disturbances == old(disturbances)
    }

    /** At most one change since, recorded. */
    twostate predicate WroteOnce()
      reads this
    {
      || (contents == old(contents) && writes == old(writes))
      || writes == old(writes) + [Write(old(contents), contents, locks)]
    }

    method Store(next: Contents)
      modifies this`contents, this`writes
      ensures contents == next && writes == old(writes) + [Write(old(contents), contents, locks)]
    {
      writes := writes + [Write(contents, next, locks)];
      contents := next;
    }

    /** Take the lock of one subject, once no other process holds it. */
    method Acquire(subject: Subject) returns (e: Exit<()>)
      requires MayWait(locks, subject)
      modifies this`locks, this`disturbances
      ensures old(disturbances) <= disturbances && (Calm() ==> e.Done?)
      ensures e.Done? ==> locks == old(locks) + {subject}
      ensures !e.Done? ==> locks == old(locks)
      ensures e.Raised? ==> e.fault == StorageError
    {
      var _ :- Pause();
      locks := locks + {subject};
      return Done(());
    }

    method Release(subject: Subject)
      modifies this`locks
      ensures locks == old(locks) - {subject}
    {
      locks := locks - {subject};
    }

    /** A crash or an operating-system error may happen here. */
    method Pause() returns (e: Exit<()>)
      modifies this`disturbances
      ensures old(disturbances) <= disturbances && (Calm() ==> e.Done?)
      ensures e.Raised? ==> e.fault == StorageError
    {
      e := *;
      if e.Raised? {
        e := Raised(StorageError);
      }
      disturbances := disturbances + (if e.Done? then 0 else 1);
    }

    /** Publish immutable bytes, or require the existing ones to be the same. */
    method Publish(artifactId: Subject, payload: Payload, version: nat) returns (e: Exit<Ref>)
      requires Authentic(contents)
      modifies this`contents, this`writes, this`disturbances
      ensures old(disturbances) <= disturbances && (Calm() ==> e.Done?)
      ensures WroteOnce()
      ensures Authentic(contents) && contents.current == old(contents.current)
      ensures contents.objects == old(contents.objects)
           || contents.objects == old(contents.objects)[Ref(artifactId, version, Sha256(payload)) := payload]
      ensures e.Done? ==> e.value == Ref(artifactId, version, Sha256(payload)) && e.value in contents.objects
      ensures e.Raised? ==> e.fault == StorageError
    {
      var reference := Ref(artifactId, version, Sha256(payload));
      var _ :- Pause();
      if reference in contents.objects {
        if contents.objects[reference] != payload {
          return Raised(Collision);
        }
        return Done(reference);
      }
      Store(contents.(objects := contents.objects[reference := payload]));
      var _ :- Pause();
      return Done(reference);
    }

    /** Reopen an object and check its digest. */
    method Load(reference: Ref) returns (e: Exit<Payload>)
      requires Authentic(contents)
      modifies this`disturbances
      ensures old(disturbances) <= disturbances && (Calm() ==> (e.Done? <==> reference in contents.objects))
      ensures e.Done? ==> reference in contents.objects && e.value == reference.contentHash.of
      ensures e.Raised? ==> e.fault == StorageError || (e.fault == NotFound && reference !in contents.objects)
    {
      var _ :- Pause();
      if reference !in contents.objects {
        return Raised(NotFound);
      }
      var payload := contents.objects[reference];
      if Sha256(payload) != reference.contentHash {
        return Raised(HashMismatch);
      }
      return Done(payload);
    }

    /** Atomically replace one pointer. */
    method SetCurrent(subject: Subject, reference: Ref) returns (e: Exit<()>)
      requires Authentic(contents) && reference in contents.objects
      modifies this`contents, this`writes, this`disturbances
      ensures old(disturbances) <= disturbances && (Calm() ==> e.Done?)
      ensures WroteOnce()
      ensures Authentic(contents) && contents.objects == old(contents.objects)
      ensures || contents.current == old(contents.current)
              || contents.current == old(contents.current)[subject := reference]
      ensures e.Done? ==> contents.current == old(contents.current)[subject := reference]
      ensures e.Raised? ==> e.fault == StorageError
    {
      var _ :- Pause();
      Store(contents.(current := contents.current[subject := reference]));
      e := Pause();
    }

    /** Read one pointer and authenticate the object it names. */
    method Current(subject: Subject) returns (e: Exit<Option<Ref>>)
      requires Authentic(contents)
      modifies this`disturbances
      ensures old(disturbances) <= disturbances && (Calm() ==> e.Done?)
      ensures e.Done? ==> e.value == Pointer(contents, subject)
      ensures e.Raised? ==> e.fault == StorageError
    {
      var _ :- Pause();
      if subject !in contents.current {
        return Done(None);
      }
      var reference := contents.current[subject];
      var payload := Load(reference);
      if payload.IsFailure() {
        return payload.PropagateFailure();
      }
      return Done(Some(reference));
    }

    /** Take back one's own update, and only that: the pointer goes back to
        previous exactly when it still is installed (or is already back). */
    method RestoreCurrentIfUnchanged(subject: Subject, installed: Ref, previous: Option<Ref>) returns (e: Exit<bool>)
      requires Authentic(contents) && (previous.Some? ==> previous.value in contents.objects)
      modifies this`contents, this`writes, this`disturbances
      ensures old(disturbances) <= disturbances && (Calm() ==> e.Done?)
      ensures WroteOnce()
      ensures Authentic(contents) && contents.objects == old(contents.objects)
      ensures contents.current - {subject} == old(contents.current) - {subject}
      ensures e.Done? ==> (e.value <==> Pointer(old(contents), subject) in {previous, Some(installed)})
      ensures e.Done? && e.value ==> Pointer(contents, subject) == previous
      ensures e.Done? && !e.value ==> Pointer(contents, subject) == Pointer(old(contents), subject)
      ensures !e.Done? && Pointer(contents, subject) != Pointer(old(contents), subject) ==>
                Pointer(old(contents), subject) == Some(installed) && Pointer(contents, subject) == previous
    {
      var _ :- Pause();
      if subject !in contents.current {
        return Done(previous.None?);
      }
      var reference := contents.current[subject];
      if Some(reference) == previous {
        return Done(true);
      }
      if reference != installed {
        return Done(false);
      }
      if previous.None? {
        Store(contents.(current := contents.current - {subject}));
      } else {
        var _ :- SetCurrent(subject, previous.value);
      }
      return Done(true);
    }
  }
}
