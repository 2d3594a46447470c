/** The acquisition protocol of one (connector id, request id) pair
    (src/envresearch/connectors/gateway.py, acquisition_store.py, usage_meter.py).

    The request lock makes calls for the pair sequential, so a run is a sequence
    of calls.  Any call may be cut short by a crash between any two steps, and
    any operation may raise.  Between steps an adversary may rewrite file contents
    and rebind the two output names to other files, but never removes a name. */
module Acquisition {
  import opened Endings
  import opened Options
  import opened Usage

  // ------------------------------------------------------------------ outcomes

  datatype Fault =
    | StorageError                        // OSError, UnsafeAcquisitionOutput, ValueError
    | Interrupt                           // any other exception
    | GateRequired(reasons: seq<Reason>, receipt: Option<Receipt>)
    | VerifiedUsageLacksReceipt
    | StateLacksReceipt

  type Exit<T> = Ending<T, Fault>

  /** Only storage errors and foreign exceptions come out of the primitives. */
  predicate Primitive<T>(e: Exit<T>) {
    e.Raised? ==> e.fault.StorageError? || e.fault.Interrupt?
  }

  // ------------------------------------------------------------- durable state

  datatype Disk = Disk(
    staging: Option<nat>,              // file bound to payload.pending
    payload: Option<nat>,              // file bound to payload
    content: map<nat, seq<int>>,       // bytes of every file
    provisional: Option<Record>,       // state file before its rename
    state: Option<Record>,             // the accepted terminal state
    tombstone: bool,
    audit: seq<Record>)
  {
    predicate Wf() {
      (staging.Some? ==> staging.value in content) && (payload.Some? ==> payload.value in content)
    }

    predicate Occupied() {
      staging.Some? || payload.Some?
    }
  }

  /** What a measurement of one file says. */
  function MeasurementOf(d: Disk, fd: nat): Measured
    requires fd in d.content
  {
    Measured(|d.content[fd]|, |d.content[fd]|, Sha256(d.content[fd]), fd)
  }

  /** The output name, under which the file is promoted or still staged, is bound to it. */
  predicate Bound(d: Disk, fd: nat, promoted: bool) {
    (if promoted then d.payload else d.staging) == Some(fd)
  }

  const EMPTY := Disk(None, None, map[], None, None, false, [])

  /** What the adversary may do; a file held open stays readable. */
  predicate Interference(d: Disk, e: Disk, held: Option<nat>) {
    && e.Wf()
    && (d.staging.Some? ==> e.staging.Some?)
    && (d.payload.Some? ==> e.payload.Some?)
    && (held.Some? && held.value in d.content ==> held.value in e.content)
    && e.provisional == d.provisional && e.state == d.state && e.tombstone == d.tombstone && e.audit == d.audit
  }

  /** What every step of every call keeps. */
  ghost predicate Advances(d: Disk, e: Disk) {
    && (d.Occupied() ==> e.Occupied())
    && (d.state.Some? ==> e.state == d.state)
    && (d.tombstone ==> e.tombstone)
    && d.audit <= e.audit
  }

  /** The receipt names the connector version, source and licence of the request. */
  predicate BoundTo(fingerprint: Fingerprint, r: Receipt) {
    && r.connectorVersion == fingerprint.connectorVersion
    && r.source == fingerprint.candidate.source
    && r.license == fingerprint.candidate.license
  }

  /** The record of an acceptance: what the connector returned for a file agrees with
      what was measured of it, and the receipt is rebuilt from measurement and meter. */
  ghost predicate Vouched(r: Record, claim: Option<Receipt>, meter: Readings, connectorId: string) {
    && r.Accepted() && r.Valid() && r.claimed == claim && claim.Some? && meter.Valid()
    && claim.value.connectorId == connectorId && BoundTo(r.fingerprint, claim.value)
    && !claim.value.Quarantined() && MeasurementMatchesReceipt(r.measured.value, claim.value)
    && r.usage == Some(meter.Usage().WithFileMeasurement(r.measured.value.bytes, r.measured.value.storage))
    && r.verified == Some(ReceiptWithMeasurement(claim.value, r.measured.value, r.usage.value))
  }

  /** Holds of the durable state after every step of every run. */
  ghost predicate Sound(d: Disk, invocations: nat) {
    && d.Wf()
    && invocations <= 1
    && (invocations == 1 || d.provisional.Some? || d.state.Some? || d.tombstone ==> d.Occupied())
    && (d.provisional.Some? || d.state.Some? || d.tombstone ==> invocations == 1)
    && (d.state.Some? ==> d.state.value in d.audit)
  }

  /** What the connector leaves: whether the staging name still binds the pinned file,
      what that file measures, and whether the output name is still free. */
  datatype Handover = Handover(measured: Option<Measured>, free: bool)

  class AcquisitionStore {
    const connectorId: string
    var disk: Disk
    ghost var invocations: nat
    ghost var latest: Option<Measured>     // the latest measurement of the output
    ghost var measurements: nat            // how often it was measured
    ghost var claim: Option<Receipt>       // what the connector returned
    ghost var handover: Handover           // what it left on the disk
    ghost var meter: Readings              // what clock and evidence provider said
    ghost var disturbances: nat            // crashes, exceptions and interference so far

    constructor (connectorId: string)
      ensures this.connectorId == connectorId && disk == EMPTY && invocations == 0 && Inv()
    {
      this.connectorId := connectorId;
      disk, invocations, latest, claim, handover := EMPTY, 0, None, None, Handover(None, true);
      measurements := 0;
      meter, disturbances := Readings(false, NoReading, NoReading, NoEvidence), 0;
    }

    ghost predicate Inv()
      reads this
    {
      && Sound(disk, invocations)
      && (disk.state.Some? ==> Vouched(disk.state.value, claim, meter, connectorId))
    }

    /** Nothing has gone wrong or been interfered with since. */
    twostate predicate Calm()
      reads this
    {
      disturbances == old(disturbances)
    }

    /** Time passes: interference, then possibly a crash or an exception. */
    method Pause(held: Option<nat>) returns (e: Exit<()>)
      requires Inv()
      modifies this`disk, this`disturbances
      ensures Primitive(e) && old(disturbances) <= disturbances
      ensures Inv() && Interference(old(disk), disk, held)
      ensures Calm() ==> e.Done? && disk == old(disk)
    {
      var next: Disk := *;
      if Interference(disk, next, held) {
        disk := next;
      } else {
        assert Interference(disk, disk, held);
      }
      e := *;
      if !Primitive(e) {
        e := Crashed;
      }
      disturbances := disturbances + (if disk != old(disk) || !e.Done? then 1 else 0);
    }

    /** Accepted or partial output entries. */
    method Exists() returns (e: Exit<bool>)
      requires Inv()
      modifies this`disk, this`disturbances
      ensures Primitive(e) && old(disturbances) <= disturbances
      ensures Inv() && Interference(old(disk), disk, None)
      ensures e.Done? ==> e.value == disk.Occupied()
      ensures Calm() ==> e.Done? && disk == old(disk)
    {
      var _ :- Pause(None);
      return Done(disk.payload.Some? || disk.staging.Some?);
    }

    /** Exclusive creation of the staging file, kept open by the caller. */
    method Prepare() returns (e: Exit<nat>)
      requires Inv()
      modifies this`disk, this`disturbances
      ensures Primitive(e) && old(disturbances) <= disturbances
      ensures Inv() && Advances(old(disk), disk)
      ensures disk.state == old(disk.state) && disk.tombstone == old(disk.tombstone)
      ensures e.Done? ==> old(disk.staging).None? && disk.staging.Some? && e.value in disk.content
      ensures Calm() && old(disk.staging).None? ==>
                e.Done? && e.value !in old(disk.content) &&
                disk == old(disk).(staging := Some(e.value), content := old(disk).content[e.value := []])
    {
      var _ :- Pause(None);
      if disk.staging.Some? {
        return Raised(StorageError);
      }
      var fd: nat :| fd !in disk.content by { UnusedName(disk.content.Keys); }
      disk := disk.(staging := Some(fd), content := disk.content[fd := []]);
      var _ :- Pause(Some(fd));
      return Done(fd);
    }

    /** Measure the open file and require the given name still to be bound to it. */
    method MeasureDescriptor(fd: nat, promoted: bool) returns (e: Exit<Measured>)
      requires Inv() && fd in disk.content
      modifies this`disk, this`latest, this`measurements, this`disturbances
      ensures Primitive(e) && old(disturbances) <= disturbances
      ensures Inv() && Interference(old(disk), disk, Some(fd))
      ensures e.Done? ==> Bound(disk, fd, promoted) && e.value == MeasurementOf(disk, fd) && latest == Some(e.value)
      ensures e.Done? ==> measurements == old(measurements) + 1
      ensures old(measurements) <= measurements
      ensures Calm() ==> disk == old(disk) && (e.Done? <==> Bound(disk, fd, promoted)) && !e.Crashed?
      ensures Calm() && e.Raised? ==> e.fault == StorageError
    {
      var _ :- Pause(Some(fd));
      var name := if promoted then disk.payload else disk.staging;
      if name != Some(fd) {
        return Raised(StorageError);
      }
      var bytes := disk.content[fd];
      var measured := Measured(|bytes|, |bytes|, Sha256(bytes), fd);
      latest, measurements := Some(measured), measurements + 1;
      return Done(measured);
    }

    /** Measure an accepted output by name. */
    method Measure() returns (e: Exit<Measured>)
      requires Inv()
      modifies this`disk, this`latest, this`measurements, this`disturbances
      ensures Primitive(e) && old(disturbances) <= disturbances
      ensures Inv() && Interference(old(disk), disk, None)
      ensures e.Done? ==> disk.payload.Some? && e.value == MeasurementOf(disk, disk.payload.value)
      ensures e.Done? ==> latest == Some(e.value)
      ensures Calm() ==> disk == old(disk) && (e.Done? <==> disk.payload.Some?) && !e.Crashed?
      ensures Calm() && e.Raised? ==> e.fault == StorageError
    {
      var _ :- Pause(None);
      if disk.payload.None? {
        return Raised(StorageError);
      }
      e := MeasureDescriptor(disk.payload.value, true);
    }

    /** The pinned file still measures the same under its name. */
    method VerifyPinned(fd: nat, measured: Measured, promoted: bool) returns (e: Exit<()>)
      requires Inv() && fd in disk.content
      modifies this`disk, this`latest, this`measurements, this`disturbances
      ensures Primitive(e) && old(disturbances) <= disturbances
      ensures Inv() && Interference(old(disk), disk, Some(fd))
      ensures e.Done? ==> Bound(disk, fd, promoted) && measured == MeasurementOf(disk, fd) && latest == Some(measured)
      ensures old(measurements) + (if e.Done? then 1 else 0) <= measurements
      ensures Calm() ==> disk == old(disk) && !e.Crashed?
      ensures Calm() ==> (e.Done? <==> Bound(disk, fd, promoted) && measured == MeasurementOf(disk, fd))
      ensures Calm() && e.Raised? ==> e.fault == StorageError
    {
      var current :- MeasureDescriptor(fd, promoted);
      if current != measured {
        return Raised(StorageError);
      }
      return Done(());
    }

    /** Rename the staging entry to the payload entry, never replacing one. */
    method Promote(fd: nat, measured: Measured) returns (e: Exit<()>)
      requires Inv() && fd in disk.content
      modifies this`disk, this`latest, this`measurements, this`disturbances
      ensures Primitive(e) && old(disturbances) <= disturbances
      ensures Inv() && Advances(old(disk), disk) && fd in disk.content
      ensures disk.state == old(disk.state) && disk.tombstone == old(disk.tombstone)
      ensures e.Done? ==> old(disk.payload).None?
      ensures e.Done? ==> old(measurements) + 2 <= measurements
      ensures Calm() && e.Raised? ==> e.fault == StorageError
      ensures Calm() ==> !e.Crashed? && disk.provisional == old(disk).provisional
      ensures Calm() && Bound(old(disk), fd, false) && measured == MeasurementOf(old(disk), fd) ==>
                (e.Done? <==> old(disk).payload.None?)
      ensures Calm() && e.Done? ==> disk == old(disk).(payload := Some(fd), staging := None)
      ensures e.Done? ==> Bound(disk, fd, true) && measured == MeasurementOf(disk, fd) && latest == Some(measured)
    {
      hide Vouched;
      var _ :- VerifyPinned(fd, measured, false);
      var _ :- Pause(Some(fd));
      if disk.staging.None? || disk.payload.Some? {
        return Raised(StorageError);
      }
      disk := disk.(payload := disk.staging, staging := None);
      var _ :- Pause(Some(fd));
      e := VerifyPinned(fd, measured, true);
    }

    /** Append one immutable audit record. */
    method Append(record: Record, held: Option<nat>) returns (e: Exit<()>)
      requires Inv() && record.Valid()
      modifies this`disk, this`disturbances
      ensures Primitive(e) && old(disturbances) <= disturbances
      ensures Inv() && Advances(old(disk), disk)
      ensures disk.state == old(disk.state) && disk.tombstone == old(disk.tombstone)
      ensures held.Some? && held.value in old(disk.content) ==> held.value in disk.content
      ensures old(disk.payload.Some?) ==> disk.payload.Some?
      ensures disk.audit == old(disk.audit) || disk.audit == old(disk.audit) + [record]
      ensures e.Done? ==> disk.audit == old(disk.audit) + [record]
      ensures Calm() ==> e.Done? && disk == old(disk).(audit := old(disk).audit + [record])
    {
      var _ :- Pause(held);
      disk := disk.(audit := disk.audit + [record]);
      e := Pause(held);
    }

    /** Publish the accepted state, or leave a tombstone when that fails. */
    method PublishState(record: Record, fd: nat, measured: Measured) returns (e: Exit<()>)
      requires Inv() && record.Valid() && fd in disk.content && disk.Occupied()
      requires invocations == 1 &&
               (record.Accepted() ==> Vouched(record, claim, meter, connectorId) && record in disk.audit)
      modifies this`disk, this`latest, this`measurements, this`disturbances
      ensures Primitive(e) && old(disturbances) <= disturbances
      ensures Inv() && Advances(old(disk), disk)
      ensures disk.audit == old(disk.audit)
      ensures e.Done? ==> record.Accepted() && disk.state == Some(record) && disk.tombstone == old(disk.tombstone)
      ensures disk.state != old(disk).state ==> old(measurements) + 2 <= measurements
      ensures e.Done? ==> old(measurements) + 3 <= measurements
      ensures Calm() && record.Accepted() && Publishable(old(disk), fd, measured) ==> e.Done?
      ensures e.Raised? && record.Accepted() && Publishable(old(disk), fd, measured) ==>
                disturbances == old(disturbances) + 1 ==>
                disk.tombstone || (disk.state == old(disk).state && disk.provisional == old(disk).provisional)
      ensures e.Done? ==> Bound(disk, fd, true) && measured == MeasurementOf(disk, fd) && latest == Some(measured)
    {
      if !record.Accepted() {
        return Raised(StorageError);
      }
      var _ :- VerifyPinned(fd, measured, true);
      e := PublishProvisionalThenFinal(record, fd, measured);
      if e.Raised? {
        var t := PublishTombstone(fd);
        if t.IsFailure() {
          e := t;
        }
      }
    }

    method PublishProvisionalThenFinal(record: Record, fd: nat, measured: Measured) returns (e: Exit<()>)
      requires Inv() && Vouched(record, claim, meter, connectorId) && fd in disk.content && disk.Occupied()
      requires record in disk.audit && invocations == 1
      modifies this`disk, this`latest, this`measurements, this`disturbances
      ensures Primitive(e) && old(disturbances) <= disturbances
      ensures Inv() && Advances(old(disk), disk) && fd in disk.content && disk.tombstone == old(disk.tombstone)
      ensures disk.audit == old(disk.audit)
      ensures e.Done? ==> disk.state == Some(record)
      ensures old(measurements) <= measurements
      ensures disk.state != old(disk).state ==> old(measurements) + 1 <= measurements
      ensures e.Done? ==> old(measurements) + 2 <= measurements
      ensures Calm() && Publishable(old(disk), fd, measured) ==> e.Done?
      ensures e.Done? ==> Bound(disk, fd, true) && measured == MeasurementOf(disk, fd) && latest == Some(measured)
    {
      var _ :- WriteProvisional(record, fd);
      var _ :- VerifyPinned(fd, measured, true);
      var _ :- RenameToFinal(record, fd);
      e := VerifyPinned(fd, measured, true);
    }

    method WriteProvisional(record: Record, fd: nat) returns (e: Exit<()>)
      requires Inv() && fd in disk.content && disk.Occupied() && invocations == 1
      modifies this`disk, this`disturbances
      ensures Primitive(e) && old(disturbances) <= disturbances
      ensures Inv() && Advances(old(disk), disk) && fd in disk.content && disk.audit == old(disk.audit)
      ensures disk.tombstone == old(disk.tombstone) && disk.state == old(disk.state) && disk.Occupied()
      ensures e.Done? ==> old(disk.provisional).None? && disk.provisional == Some(record)
      ensures Calm() && old(disk).provisional.None? ==> e.Done? && disk == old(disk).(provisional := Some(record))
    {
      var _ :- Pause(Some(fd));
      if disk.provisional.Some? {
        return Raised(StorageError);
      }
      disk := disk.(provisional := Some(record));
      e := Pause(Some(fd));
    }

    /** The rename that makes the state visible; it never replaces one. */
    method RenameToFinal(record: Record, fd: nat) returns (e: Exit<()>)
      requires Inv() && Vouched(record, claim, meter, connectorId) && record in disk.audit
      requires fd in disk.content && disk.Occupied() && invocations == 1
      requires disk.provisional == Some(record)
      modifies this`disk, this`disturbances
      ensures Primitive(e) && old(disturbances) <= disturbances
      ensures Inv() && Advances(old(disk), disk) && fd in disk.content && disk.tombstone == old(disk.tombstone)
      ensures disk.audit == old(disk.audit)
      ensures e.Done? ==> old(disk.state).None? && disk.state == Some(record) && disk.provisional.None?
      ensures Calm() && old(disk).state.None? ==>
                e.Done? && disk == old(disk).(state := Some(record), provisional := None)
    {
      var _ :- Pause(Some(fd));
      if disk.state.Some? {
        return Raised(StorageError);
      }
      disk := disk.(state := disk.provisional, provisional := None);
      e := Pause(Some(fd));
    }

    method PublishTombstone(fd: nat) returns (e: Exit<()>)
      requires Inv() && disk.Occupied() && invocations == 1
      modifies this`disk, this`disturbances
      ensures Primitive(e) && old(disturbances) <= disturbances
      ensures Inv() && Advances(old(disk), disk) && disk.audit == old(disk.audit) && disk.state == old(disk.state)
      ensures e.Done? ==> disk.tombstone
      ensures Calm() ==> e.Done?
    {
      var _ :- Pause(Some(fd));
      disk := disk.(tombstone := true);
      e := Pause(Some(fd));
    }

    /** The accepted state, unless a tombstone hides it. */
    method LoadState() returns (e: Exit<Option<Record>>)
      requires Inv()
      modifies this`disk, this`disturbances
      ensures Primitive(e) && old(disturbances) <= disturbances
      ensures Inv() && Interference(old(disk), disk, None)
      ensures e.Done? ==> e.value == if disk.tombstone then None else disk.state
      ensures Calm() ==> e.Done? && disk == old(disk)
    {
      var _ :- Pause(None);
      if disk.tombstone || disk.state.None? {
        return Done(None);
      }
      var _ :- Pause(None);
      return Done(disk.state);
    }

    /** Connector code runs: it may do anything to the output entries. */
    method RunConnector(fd: nat) returns (e: Exit<Option<Receipt>>)
      requires Inv() && invocations == 0 && disk.Occupied() && fd in disk.content
      modifies this`disk, this`invocations, this`claim, this`handover, this`disturbances
      ensures Primitive(e) && old(disturbances) <= disturbances
      ensures Inv() && invocations == 1 && Interference(old(disk), disk, Some(fd))
      ensures e.Done? ==> e.value == claim
      ensures Calm() ==> e.Done? && handover == Handed(disk, fd)
    {
      invocations := 1;
      var next: Disk := *;
      if Interference(disk, next, Some(fd)) {
        disk := next;
      }
      claim, handover := None, Handed(disk, fd);
      var _ :- Pause(Some(fd));
      var claimed: Option<Receipt> := *;
      claim := claimed;
      return Done(claimed);
    }

    /** One reading of the clock before the connector runs, and whether it is trusted. */
    method ReadStart(trusted: bool) returns (start: ClockReading)
      requires disk.state.None?
      modifies this`meter
      ensures meter == old(meter).(trusted := trusted, start := start)
    {
      start := *;
      meter := meter.(trusted := trusted, start := start);
    }

    /** The readings after it: the clock, then the evidence provider. */
    method ReadEnd() returns (end: ClockReading, evidence: EvidenceReading)
      requires disk.state.None?
      modifies this`meter
      ensures meter == old(meter).(end := end, evidence := evidence) && meter.Valid()
    {
      end := *;
      evidence := *;
      if evidence.Evidence? && evidence.cost < 0.0 {
        evidence := EvidenceRaised;
      }
      meter := meter.(end := end, evidence := evidence);
    }
  }

  /** The disk as the connector leaves it, seen from the pinned file. */
  ghost function Handed(d: Disk, fd: nat): Handover
    requires fd in d.content
  {
    Handover(if Bound(d, fd, false) then Some(MeasurementOf(d, fd)) else None, d.payload.None?)
  }

  /** A promoted output nothing is published for yet. */
  ghost predicate Publishable(d: Disk, fd: nat, measured: Measured) {
    && fd in d.content && Bound(d, fd, true) && measured == MeasurementOf(d, fd)
    && d.provisional.None? && d.state.None?
  }

  lemma {:induction false} UnusedName(names: set<nat>)
    ensures exists fd: nat :: fd !in names && forall n | n in names :: n < fd
    decreases |names|
  {
    if names == {} {
      var fd := 0;
      assert fd !in names && forall n | n in names :: n < fd;
    } else {
      var n :| n in names;
      UnusedName(names - {n});
      var fd: nat :| fd !in names - {n} && forall m | m in names - {n} :: m < fd;
      var above := fd + n + 1;
      assert forall m | m in names :: m == n || m in names - {n};
      assert above !in names && forall m | m in names :: m < above;
    }
  }

  // ------------------------------------------------------------ one call's meter

  class GatewayUsageSession {
    const clockTrusted: bool
    var usage: VerifiedUsage

    constructor (clockTrusted: bool)
      ensures usage == UNVERIFIED && this.clockTrusted == clockTrusted
    {
      this.clockTrusted := clockTrusted;
      usage := UNVERIFIED;
    }

    /** Invoke the connector and fix the usage on every exit but a crash. */
    method Invoke(store: AcquisitionStore, fd: nat) returns (e: Exit<Option<Receipt>>)
      requires store.Inv() && store.invocations == 0 && store.disk.Occupied() && fd in store.disk.content
      requires usage == UNVERIFIED
      modifies this`usage, store`disk, store`invocations, store`claim, store`handover, store`meter, store`disturbances
      ensures Primitive(e) && old(store.disturbances) <= store.disturbances
      ensures store.Inv() && Interference(old(store.disk), store.disk, Some(fd))
      ensures usage.Valid() && usage.bytes.None? && usage.storage.None? && store.meter.trusted == clockTrusted
      ensures store.meter.start.ClockRaised? ==> e == Raised(Interrupt) && store.invocations == 0
      ensures e.Raised? && !store.meter.start.ClockRaised? ==> store.meter.Valid() && usage == store.meter.Usage()
      ensures e.Done? ==> store.invocations == 1 && e.value == store.claim
      ensures e.Done? ==> store.meter.Valid() && usage == store.meter.Usage() && !Unmetered(store.meter)
      ensures store.Calm() ==> !e.Crashed? && (e.Done? <==> !Unmetered(store.meter))
      ensures store.Calm() && e.Raised? ==> e.fault == Interrupt
      ensures store.Calm() && e.Done? ==> store.handover == Handed(store.disk, fd)
    {
      var start := store.ReadStart(clockTrusted);
      if start.ClockRaised? {
        return Raised(Interrupt);
      }
      var claimed := store.RunConnector(fd);
      if claimed.Crashed? {
        return claimed;
      }
      var end, evidence := store.ReadEnd();
      usage := FinalUsage(start, end, clockTrusted, evidence);
      if claimed.Done? && (end.ClockRaised? || evidence.EvidenceRaised?) {
        return Raised(Interrupt);
      }
      return claimed;
    }
  }

  /** A reading raised an exception. */
  predicate Unmetered(m: Readings) {
    m.start.ClockRaised? || m.end.ClockRaised? || m.evidence.EvidenceRaised?
  }

  // ----------------------------------------------------------------- the gateway

  datatype Action = AutoAcquire | PlanningOnly | Gated

  /** One call: the policies' verdicts are inputs, connector and request id are the store's. */
  datatype Request = Request(
    connectorVersion: string, candidate: Candidate, risk: Risk, baseline: Action, extension: Option<Action>)
  {
    function Fingerprinted(): Fingerprint {
      Fingerprint(connectorVersion, candidate, risk)
    }
  }

  /** Both policies let the candidate be acquired automatically, at public risk. */
  predicate Allowed(request: Request) {
    && request.baseline.AutoAcquire?
    && (request.extension.None? || request.extension.value.AutoAcquire?)
    && request.risk.Public?
  }

  predicate PlannedOnly(request: Request) {
    request.baseline.PlanningOnly? || (request.baseline.AutoAcquire? && request.extension == Some(PlanningOnly))
  }

  /** The last audit record gives these reasons for this request. */
  ghost predicate Audited(d: Disk, request: Request, reasons: seq<Reason>) {
    && d.audit != []
    && d.audit[|d.audit| - 1].fingerprint == request.Fingerprinted()
    && d.audit[|d.audit| - 1].reasons == reasons
  }

  /** Everything a caller may rely on in a returned receipt. */
  ghost predicate Trustworthy(r: Receipt, request: Request, budget: Budget) {
    && !r.Quarantined()
    && r.bytes <= budget.bytes && r.storage <= budget.storage && r.calls <= budget.calls
    && r.cost <= budget.cost && r.elapsed <= budget.elapsed
    && BoundTo(request.Fingerprinted(), r)
  }

  /** What the connector itself returned stands behind the receipt: it was not
      quarantined, names this connector, and says the same of source, file and size. */
  ghost predicate BackedBy(r: Receipt, claim: Option<Receipt>, meter: Readings, connectorId: string) {
    && claim.Some? && !claim.value.Quarantined()
    && r.connectorId == claim.value.connectorId == connectorId
    && r.connectorVersion == claim.value.connectorVersion
    && r.source == claim.value.source && r.license == claim.value.license
    && r.bytes == claim.value.bytes && r.storage == claim.value.storage && r.sha256 == claim.value.sha256
    && meter.trusted && meter.evidence == Evidence(r.calls, r.cost)
    && ElapsedSeconds(meter.start, meter.end) == Some(r.elapsed)
  }

  /** The receipt is the one in the durable state of this very request. */
  ghost predicate Recorded(d: Disk, request: Request, r: Receipt) {
    d.state.Some? && d.state.value.verified == Some(r) && d.state.value.fingerprint == request.Fingerprinted() &&
    d.state.value in d.audit
  }

  lemma VouchedIsBacked(r: Record, claim: Option<Receipt>, meter: Readings, connectorId: string)
    requires Vouched(r, claim, meter, connectorId)
    ensures BackedBy(r.verified.value, claim, meter, connectorId) && BoundTo(r.fingerprint, r.verified.value)
  {
  }

  predicate ReceiptIsValid(request: Request, connectorId: string, claimed: Option<Receipt>) {
    claimed.Some? && claimed.value.connectorId == connectorId && BoundTo(request.Fingerprinted(), claimed.value)
  }

  // -------------------------------------------------- what an undisturbed call does

  /** The usage the gateway judges: the meter's, with the file's measurement. */
  function JudgedUsage(meter: Readings, measured: Measured): (u: VerifiedUsage)
    requires meter.Valid()
    ensures u.Valid()
  {
    meter.Usage().WithFileMeasurement(measured.bytes, measured.storage)
  }

  function JudgedReasons(claim: Receipt, measured: Measured, usage: VerifiedUsage, budget: Budget): seq<Reason> {
    MeasurementMismatches(claim, measured) + UsageReasons(budget, usage)
    + (if claim.Quarantined() then [ConnectorQuarantined] else [])
  }

  /** There is nothing to object to exactly when the claim is the connector's own and
      agrees with the file, and the usage is verified and within the budget. */
  lemma JudgedReasonsExactly(claim: Receipt, measured: Measured, usage: VerifiedUsage, budget: Budget)
    ensures var reasons := JudgedReasons(claim, measured, usage, budget);
            && (reasons == [] <==>
                  !claim.Quarantined() && MeasurementMatchesReceipt(measured, claim) && WithinBudget(budget, usage))
            && (BytesMismatch in reasons <==> claim.bytes != measured.bytes)
            && (StorageMismatch in reasons <==> claim.storage != measured.storage)
            && (HashMismatch in reasons <==> claim.sha256 != measured.sha256)
            && (ConnectorQuarantined in reasons <==> claim.Quarantined())
            && forall r: Reason | r.NotVerified? || r.ExceedsBudget? :: r in reasons <==>
              r in UsageReasons(budget, usage)
  {
    hide UsageReasons, WithinBudget, MeasurementMismatches;
    OnlyLimitReasons(budget, usage);
    var m, u := MeasurementMismatches(claim, measured), UsageReasons(budget, usage);
    var q: seq<Reason> := if claim.Quarantined() then [ConnectorQuarantined] else [];
    JoinedReasons(m, u, q);
  }

  lemma JoinedReasons(m: seq<Reason>, u: seq<Reason>, q: seq<Reason>)
    requires forall r | r in m :: r in {BytesMismatch, StorageMismatch, HashMismatch}
    requires q == [] || q == [ConnectorQuarantined]
    requires forall r | r in u :: r.NotVerified? || r.ExceedsBudget?
    ensures m + u + q == [] <==> m == [] && u == [] && q == []
    ensures forall r | r in {BytesMismatch, StorageMismatch, HashMismatch} :: r in m + u + q <==> r in m
    ensures ConnectorQuarantined in m + u + q <==> q != []
    ensures forall r: Reason | r.NotVerified? || r.ExceedsBudget? :: r in m + u + q <==> r in u
  {
    assert forall r :: r in m + u + q <==> r in m || r in u || r in q;
    assert q != [] ==> q[0] == ConnectorQuarantined;
    assert m + u + q == [] ==> |m| + |u| + |q| == 0;
  }

  /** The verdict on what the connector left, when nothing disturbs the call. */
  ghost predicate JudgeSettles(claim: Receipt, measured: Measured, usage: VerifiedUsage, budget: Budget, free: bool,
                               e: Exit<Option<Receipt>>)
    requires usage.Valid()
  {
    var reasons := JudgedReasons(claim, measured, usage, budget);
    var receipt := if usage.FullyVerified() then Some(ReceiptWithMeasurement(claim, measured, usage)) else None;
    if reasons != [] then
      e == Raised(GateRequired(reasons, if receipt.Some? then Some(receipt.value.Quarantine(reasons)) else None))
    else if free then
      receipt.Some? && e == Done(receipt)
    else
      receipt.Some? &&
      e == Raised(GateRequired([ChangedBeforePromotion], Some(receipt.value.Quarantine([ChangedBeforePromotion]))))
  }

  /** A call on a store with nothing in it yet. */
  ghost predicate FreshSettles(request: Request, budget: Budget, connectorId: string, claim: Option<Receipt>,
                               handover: Handover, meter: Readings, e: Exit<Option<Receipt>>)
  {
    if Unmetered(meter) then e == Raised(Interrupt)
    else if !ReceiptIsValid(request, connectorId, claim) then e == Raised(GateRequired([ReceiptInvalid], None))
    else if handover.measured.None? then e == Raised(GateRequired([UnsafeOutput], None))
    else meter.Valid() &&
         JudgeSettles(claim.value, handover.measured.value, JudgedUsage(meter, handover.measured.value), budget,
                      handover.free, e)
  }

  /** A call on a store with an accepted state. */
  ghost predicate ReuseSettles(request: Request, budget: Budget, d: Disk, e: Exit<Option<Receipt>>)
    requires d.Wf() && d.state.Some? && d.state.value.Accepted() && d.state.value.Valid()
  {
    var existing := d.state.value;
    var reasons := UsageReasons(budget, existing.usage.value);
    if existing.fingerprint != request.Fingerprinted() then e == Raised(GateRequired([ConflictingRequest], None))
    else if reasons != [] then e == Raised(GateRequired(reasons, Some(existing.verified.value.Quarantine(reasons))))
    else if d.payload.None? then e == Raised(GateRequired([NoLongerSafe], None))
    else if existing.measured != Some(MeasurementOf(d, d.payload.value)) then
      e == Raised(GateRequired([NoLongerMatches], None))
    else e == Done(existing.verified)
  }

  /** An accepted record within the budget carries a receipt the caller may rely on. */
  lemma WithinBudgetTrustworthy(request: Request, budget: Budget, r: Record, claim: Option<Receipt>, meter: Readings,
                                connectorId: string)
    requires Vouched(r, claim, meter, connectorId) && WithinBudget(budget, r.usage.value)
    requires r.fingerprint == request.Fingerprinted()
    ensures Trustworthy(r.verified.value, request, budget)
  {
  }

  class ConnectorGateway {
    const budget: Budget
    const store: AcquisitionStore
    const clockTrusted: bool
    var lastReceipt: Option<Receipt>

    constructor (budget: Budget, store: AcquisitionStore, clockTrusted: bool)
      ensures this.budget == budget && this.store == store && lastReceipt == None
    {
      this.budget, this.store, this.clockTrusted := budget, store, clockTrusted;
      lastReceipt := None;
    }

    /** A call's effect on the durable state; the connector runs only where nothing was yet. */
    twostate predicate Outcome(request: Request, new e: Exit<Option<Receipt>>)
      reads this, store
    {
      Promises(request, e) && (store.invocations > old(store.invocations) ==> !old(store.disk).Occupied())
    }

    /** What a call keeps, and what its exit promises. */
    twostate predicate Promises(request: Request, new e: Exit<Option<Receipt>>)
      reads this, store
    {
      && store.Inv()
      && Advances(old(store.disk), store.disk)
      && old(store.invocations) <= store.invocations && old(store.disturbances) <= store.disturbances
      && (store.invocations > old(store.invocations) ==> Allowed(request))
      && (old(store.disk).state.Some? ==> store.claim == old(store.claim) && store.meter == old(store.meter))
      && (e.Done? && e.value.None? ==> PlannedOnly(request))
      && (e.Raised? && e.fault.GateRequired? && Allowed(request) ==> Audited(store.disk, request, e.fault.reasons))
      && (e.Raised? ==> !e.fault.VerifiedUsageLacksReceipt? && !e.fault.StateLacksReceipt?)
      && (e.Done? && e.value.Some? ==>
            && Trustworthy(e.value.value, request, budget)
            && BackedBy(e.value.value, store.claim, store.meter, store.connectorId)
            && Recorded(store.disk, request, e.value.value)
            && !store.disk.tombstone
            && store.latest.Some? && MeasurementMatchesReceipt(store.latest.value, e.value.value)
            && lastReceipt == e.value)
      && (lastReceipt.Some? && !lastReceipt.value.Quarantined() ==>
            e == Done(lastReceipt) || lastReceipt == old(lastReceipt))
    }

    /** An undisturbed allowed call ends in one determined way. */
    twostate predicate Settles(request: Request, new e: Exit<Option<Receipt>>)
      reads this, store
    {
      store.Calm() && store.Inv() && old(store.Inv()) ==>
        var d := old(store.disk);
        if d.state.Some? && !d.tombstone then ReuseSettles(request, budget, d, e)
        else if d.Occupied() then e == Raised(GateRequired([Residue], None))
        else
          && store.meter.trusted == clockTrusted
          && FreshSettles(request, budget, store.connectorId, store.claim, store.handover, store.meter, e)
    }

    method Acquire(request: Request) returns (e: Exit<Option<Receipt>>)
      requires store.Inv()
      modifies this`lastReceipt, store
      ensures Outcome(request, e)
      ensures Allowed(request) ==> Settles(request, e)
      ensures PlannedOnly(request) ==> e == Done(None)
      ensures !PlannedOnly(request) && (request.baseline.Gated? || request.extension == Some(Gated)) ==>
                e == Raised(GateRequired([PolicyGate], None))
      ensures request.baseline.AutoAcquire? && request.extension in {None, Some(AutoAcquire)} &&
              !request.risk.Public? ==>
                e == Raised(GateRequired([RiskGate], None))
    {
      match request.baseline {
        case PlanningOnly => return Done(None);
        case Gated => return Raised(GateRequired([PolicyGate], None));
        case AutoAcquire =>
      }
      if request.extension == Some(PlanningOnly) {
        return Done(None);
      }
      if request.extension == Some(Gated) {
        return Raised(GateRequired([PolicyGate], None));
      }
      if !request.risk.Public? {
        return Raised(GateRequired([RiskGate], None));
      }
      e := AcquireLocked(request);
    }

    method AcquireLocked(request: Request) returns (e: Exit<Option<Receipt>>)
      requires store.Inv() && Allowed(request)
      modifies this`lastReceipt, store
      ensures Outcome(request, e) && Settles(request, e)
    {
      hide JudgeSettles, BackedBy, Vouched, Trustworthy, Recorded;
      var existing := store.LoadState();
      if existing.Crashed? || (existing.Raised? && existing.fault.Interrupt?) {
        return existing.PropagateFailure();
      }
      if existing.Raised? {
        e := Gate(request, [StateInvalid], None, None, None, None, None, None);
        return;
      }
      if existing.value.Some? {
        e := ReuseExisting(request, existing.value.value);
        return;
      }
      var occupied :- store.Exists();
      if occupied {
        e := Gate(request, [Residue], None, None, None, None, None, None);
        return;
      }
      var fd :- store.Prepare();
      e := AcquirePrepared(request, fd);
    }

    /** Record a failure and require the conditional gate. */
    method Gate(request: Request, reasons: seq<Reason>, held: Option<nat>, claimed: Option<Receipt>,
                verified: Option<Receipt>, measured: Option<Measured>, usage: Option<VerifiedUsage>,
                attached: Option<Receipt>)
      returns (e: Exit<Option<Receipt>>)
      requires store.Inv() && reasons != []
      modifies store`disk, store`disturbances
      ensures store.Inv() && Advances(old(store.disk), store.disk) && old(store.disturbances) <= store.disturbances
      ensures e.Done? ==> false
      ensures store.Calm() ==> e == Raised(GateRequired(reasons, attached))
      ensures e.Raised? ==> Primitive(e) || e.fault == GateRequired(reasons, attached)
      ensures e.Raised? && e.fault.GateRequired? ==> Audited(store.disk, request, reasons)
    {
      var record := Record(request.Fingerprinted(), reasons, claimed, verified, measured, usage);
      var _ :- store.Append(record, held);
      return Raised(GateRequired(reasons, attached));
    }

    method AcquirePrepared(request: Request, fd: nat) returns (e: Exit<Option<Receipt>>)
      requires store.Inv() && store.invocations == 0 && store.disk.Occupied() && fd in store.disk.content
      requires Allowed(request)
      modifies this`lastReceipt, store
      ensures Promises(request, e)
      ensures store.meter.trusted == clockTrusted
      ensures store.Calm() ==>
                FreshSettles(request, budget, store.connectorId, store.claim, store.handover, store.meter, e)
    {
      hide JudgeSettles, BackedBy, Vouched, Trustworthy, Audited;
      var session := new GatewayUsageSession(clockTrusted);
      var invoked := session.Invoke(store, fd);
      if invoked.Crashed? {
        return Crashed;
      }
      if invoked.Raised? {
        var record := Record(request.Fingerprinted(), [InvocationFailed], None, None, None, Some(session.usage));
        var _ :- store.Append(record, Some(fd));
        return Raised(invoked.fault);
      }
      var claimed := invoked.value;
      if !ReceiptIsValid(request, store.connectorId, claimed) {
        e := Gate(request, [ReceiptInvalid], Some(fd), None, None, None, Some(session.usage), None);
        return;
      }
      var measurement := store.MeasureDescriptor(fd, false);
      if measurement.Crashed? || (measurement.Raised? && measurement.fault.Interrupt?) {
        return measurement.PropagateFailure();
      }
      if measurement.Raised? {
        lastReceipt := None;
        e := Gate(request, [UnsafeOutput], Some(fd), claimed, None, None, Some(session.usage), None);
        return;
      }
      e := Judge(request, fd, claimed.value, measurement.value,
                 session.usage.WithFileMeasurement(measurement.value.bytes, measurement.value.storage));
    }

    /** From the first measurement on: compare, promote, record, publish. */
    method Judge(request: Request, fd: nat, claimed: Receipt, measured: Measured, usage: VerifiedUsage)
      returns (e: Exit<Option<Receipt>>)
      requires store.Inv() && store.disk.Occupied() && fd in store.disk.content && store.invocations == 1
      requires store.disk.state.None? && !store.disk.tombstone && store.disk.provisional.None?
      requires store.claim == Some(claimed) && ReceiptIsValid(request, store.connectorId, store.claim)
      requires store.meter.Valid() && usage == JudgedUsage(store.meter, measured)
      modifies this`lastReceipt, store`disk, store`latest, store`measurements, store`disturbances
      ensures Outcome(request, e)
      ensures store.Calm() && Bound(old(store.disk), fd, false) && measured == MeasurementOf(old(store.disk), fd) ==>
                JudgeSettles(claimed, measured, usage, budget, old(store.disk).payload.None?, e)
    {
      hide Audited, MeasurementOf, BackedBy, Trustworthy;
      var verified := if usage.FullyVerified() then Some(ReceiptWithMeasurement(claimed, measured, usage)) else None;
      var budgetReasons := ActualUsageReasons(budget, usage);
      var reasons := MeasurementMismatches(claimed, measured) + budgetReasons
                     + (if claimed.Quarantined() then [ConnectorQuarantined] else []);
      if reasons != [] {
        lastReceipt := if verified.Some? then Some(verified.value.Quarantine(reasons)) else None;
        e := Gate(request, reasons, Some(fd), Some(claimed), lastReceipt, Some(measured), Some(usage), lastReceipt);
        return;
      }
      if verified.None? {
        return Raised(VerifiedUsageLacksReceipt);
      }
      var promotion := store.Promote(fd, measured);
      if promotion.Crashed? || (promotion.Raised? && promotion.fault.Interrupt?) {
        return promotion.PropagateFailure();
      }
      if promotion.Raised? {
        lastReceipt := Some(verified.value.Quarantine([ChangedBeforePromotion]));
        e := Gate(request, [ChangedBeforePromotion], Some(fd), Some(claimed), lastReceipt, Some(measured),
                  Some(usage), lastReceipt);
        return;
      }
      var accepted := Record(request.Fingerprinted(), [], Some(claimed), verified, Some(measured), Some(usage));
      WithinBudgetTrustworthy(request, budget, accepted, store.claim, store.meter, store.connectorId);
      e := Accept(request, fd, accepted, measured);
    }

    /** The promoted output is the receipt's: record and publish it. */
    method Accept(request: Request, fd: nat, accepted: Record, measured: Measured)
      returns (e: Exit<Option<Receipt>>)
      requires store.Inv() && store.disk.Occupied() && fd in store.disk.content && store.invocations == 1
      requires store.disk.state.None? && !store.disk.tombstone
      requires Vouched(accepted, store.claim, store.meter, store.connectorId)
      requires accepted.fingerprint == request.Fingerprinted()
      requires accepted.measured == Some(measured) && Trustworthy(accepted.verified.value, request, budget)
      modifies this`lastReceipt, store`disk, store`latest, store`measurements, store`disturbances
      ensures Outcome(request, e)
      ensures store.Calm() && Publishable(old(store.disk), fd, measured) ==> e == Done(accepted.verified)
    {
      hide Audited, Trustworthy, BackedBy;
      var verified := accepted.verified.value;
      VouchedIsBacked(accepted, store.claim, store.meter, store.connectorId);
      var _ :- store.Append(accepted, Some(fd));
      var publication := store.PublishState(accepted, fd, measured);
      if publication.Crashed? || (publication.Raised? && publication.fault.Interrupt?) {
        return publication.PropagateFailure();
      }
      if publication.Raised? {
        lastReceipt := Some(verified.Quarantine([ChangedDuringPublication]));
        e := Gate(request, [ChangedDuringPublication], None, accepted.claimed, lastReceipt, Some(measured),
                  accepted.usage, lastReceipt);
        return;
      }
      lastReceipt := Some(verified);
      return Done(lastReceipt);
    }

    method ReuseExisting(request: Request, existing: Record) returns (e: Exit<Option<Receipt>>)
      requires store.Inv() && store.disk.state == Some(existing) && !store.disk.tombstone
      modifies this`lastReceipt, store`disk, store`latest, store`measurements, store`disturbances
      ensures Outcome(request, e)
      ensures store.Calm() ==> ReuseSettles(request, budget, old(store.disk), e)
    {
      hide Audited, BackedBy;
      VouchedIsBacked(existing, store.claim, store.meter, store.connectorId);
      if existing.fingerprint != request.Fingerprinted() {
        e := Gate(request, [ConflictingRequest], None, existing.claimed, existing.verified, existing.measured,
                  existing.usage, None);
        return;
      }
      if existing.verified.None? {
        return Raised(StateLacksReceipt);
      }
      var reasons := [NotVerified(DownloadBytes)];
      if existing.usage.Some? {
        reasons := ActualUsageReasons(budget, existing.usage.value);
      }
      if reasons != [] {
        lastReceipt := Some(existing.verified.value.Quarantine(reasons));
        e := Gate(request, reasons, None, existing.claimed, lastReceipt, existing.measured, existing.usage,
                  lastReceipt);
        return;
      }
      var measurement := store.Measure();
      if measurement.Crashed? || (measurement.Raised? && measurement.fault.Interrupt?) {
        return measurement.PropagateFailure();
      }
      if measurement.Raised? {
        e := Gate(request, [NoLongerSafe], None, None, None, None, None, None);
        return;
      }
      if existing.measured != Some(measurement.value) {
        e := Gate(request, [NoLongerMatches], None, existing.claimed, existing.verified, Some(measurement.value),
                  existing.usage, None);
        return;
      }
      lastReceipt := existing.verified;
      return Done(existing.verified);
    }
  }

  // ------------------------------------------------------------------ whole runs

  datatype Call = Call(request: Request, budget: Budget, clockTrusted: bool)

  predicate Returned(e: Exit<Option<Receipt>>) {
    e.Done? && e.value.Some?
  }

  /** A returned receipt is the durable one of its request, and what the connector itself
      returned stands behind it. */
  ghost predicate Kept(store: AcquisitionStore, call: Call, e: Exit<Option<Receipt>>)
    reads store
  {
    Returned(e) ==>
      && Trustworthy(e.value.value, call.request, call.budget)
      && BackedBy(e.value.value, store.claim, store.meter, store.connectorId)
      && Recorded(store.disk, call.request, e.value.value)
  }

  /** Any sequence of calls for one request, each by its own gateway, each cut
      short anywhere by a crash or a failure.  The ghost output tells whether a
      tombstone existed after each call. */
  method Campaign(store: AcquisitionStore, calls: seq<Call>)
    returns (exits: seq<Exit<Option<Receipt>>>, ghost tombstones: seq<bool>)
    requires store.disk == EMPTY && store.invocations == 0
    modifies store
    ensures |exits| == |tombstones| == |calls|
    ensures store.Inv() && store.invocations <= 1
    ensures store.invocations == 1 ==> exists i | 0 <= i < |calls| :: Allowed(calls[i].request)
    ensures forall i | 0 <= i < |calls| :: Kept(store, calls[i], exits[i])
    ensures forall i, j | 0 <= i < j < |calls| && Returned(exits[i]) && Returned(exits[j]) ::
              exits[i] == exits[j] && calls[i].request.Fingerprinted() == calls[j].request.Fingerprinted()
    ensures forall i, j | 0 <= i < j < |calls| && tombstones[i] :: !Returned(exits[j])
    ensures forall i | 0 <= i < |calls| && exits[i].Raised? ::
              !exits[i].fault.VerifiedUsageLacksReceipt? && !exits[i].fault.StateLacksReceipt?
  {
    hide Trustworthy, BackedBy, Vouched, Audited, ReuseSettles, FreshSettles;
    exits, tombstones := [], [];
    for k := 0 to |calls|
      invariant |exits| == |tombstones| == k && store.Inv()
      invariant store.invocations == 1 ==> exists i | 0 <= i < k :: Allowed(calls[i].request)
      invariant forall i | 0 <= i < k && tombstones[i] :: store.disk.tombstone
      invariant forall i | 0 <= i < k :: Kept(store, calls[i], exits[i])
      invariant forall i, j | 0 <= i < j < k && tombstones[i] :: !Returned(exits[j])
      invariant forall i | 0 <= i < k && exits[i].Raised? ::
                  !exits[i].fault.VerifiedUsageLacksReceipt? && !exits[i].fault.StateLacksReceipt?
    {
      var gateway := new ConnectorGateway(calls[k].budget, store, calls[k].clockTrusted);
      var e := gateway.Acquire(calls[k].request);
      exits, tombstones := exits + [e], tombstones + [store.disk.tombstone];
    }
  }
}
