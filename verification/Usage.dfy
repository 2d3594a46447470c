/** Measured usage, receipts and audit records
    (src/envresearch/connectors/usage_meter.py, acquisition_receipts.py, contracts.py). */
module Usage {
  import opened Options
  import opened Reals

  datatype Source = GatewayMeasured | TrustedEvidence | Unverified

  datatype Verification = Verification(bytes: Source, storage: Source, calls: Source, cost: Source, elapsed: Source)

  datatype VerifiedUsage = VerifiedUsage(
    bytes: Option<nat>, storage: Option<nat>, calls: Option<nat>, cost: Option<real>, elapsed: Option<nat>,
    verification: Verification)
  {
    /** The two validators of the usage model. */
    predicate Valid() {
      && verification.bytes in {GatewayMeasured, Unverified}
      && verification.storage in {GatewayMeasured, Unverified}
      && verification.elapsed in {GatewayMeasured, Unverified}
      && verification.calls in {TrustedEvidence, Unverified}
      && verification.cost in {TrustedEvidence, Unverified}
      && (bytes.None? <==> verification.bytes.Unverified?)
      && (storage.None? <==> verification.storage.Unverified?)
      && (calls.None? <==> verification.calls.Unverified?)
      && (cost.None? <==> verification.cost.Unverified?)
      && (elapsed.None? <==> verification.elapsed.Unverified?)
      && (cost.Some? ==> cost.value >= 0.0)
    }

    predicate FullyVerified() {
      && !verification.bytes.Unverified?
      && !verification.storage.Unverified?
      && !verification.calls.Unverified?
      && !verification.cost.Unverified?
      && !verification.elapsed.Unverified?
    }

    function WithFileMeasurement(byteCount: nat, storageCount: nat): (u: VerifiedUsage)
      requires Valid()
      ensures u.Valid() && u.bytes == Some(byteCount) && u.storage == Some(storageCount)
      ensures u.calls == calls && u.cost == cost && u.elapsed == elapsed
      ensures u.FullyVerified() <==> calls.Some? && cost.Some? && elapsed.Some?
    {
      this.(bytes := Some(byteCount), storage := Some(storageCount),
            verification := verification.(bytes := GatewayMeasured, storage := GatewayMeasured))
    }
  }

  const UNVERIFIED := VerifiedUsage(None, None, None, None, None,
                                    Verification(Unverified, Unverified, Unverified, Unverified, Unverified))

  datatype Budget = Budget(bytes: nat, storage: nat, calls: nat, cost: real, elapsed: nat)

  // --------------------------------------------------------- the session's meter

  /** One clock read: an exception, no usable number, or a finite number. */
  datatype ClockReading = ClockRaised | NoReading | At(seconds: real)

  /** What the evidence provider yields: an exception, nothing usable, or counts. */
  datatype EvidenceReading = EvidenceRaised | NoEvidence | Evidence(calls: nat, cost: real)

  /** The whole seconds between two readings, rounded up, unless the clock went back. */
  function ElapsedSeconds(start: ClockReading, end: ClockReading): (r: Option<nat>)
    ensures r.Some? <==> start.At? && end.At? && end.seconds >= start.seconds
    ensures r.Some? ==> r.value as real >= end.seconds - start.seconds > r.value as real - 1.0
  {
    if start.At? && end.At? && end.seconds >= start.seconds then Some(Ceiling(end.seconds - start.seconds)) else None
  }

  /** The usage fixed on every exit of an invocation. */
  function FinalUsage(start: ClockReading, end: ClockReading, clockTrusted: bool,
                      evidence: EvidenceReading): (u: VerifiedUsage)
    requires evidence.Evidence? ==> evidence.cost >= 0.0
    ensures u.Valid() && u.bytes.None? && u.storage.None?
    ensures u.elapsed == if clockTrusted then ElapsedSeconds(start, end) else None
    ensures evidence.Evidence? ==> u.calls == Some(evidence.calls) && u.cost == Some(evidence.cost)
    ensures !evidence.Evidence? ==> u.calls.None? && u.cost.None?
  {
    var elapsed := if clockTrusted then ElapsedSeconds(start, end) else None;
    var measured := if elapsed.Some? then GatewayMeasured else Unverified;
    if evidence.Evidence? then
      VerifiedUsage(None, None, Some(evidence.calls), Some(evidence.cost), elapsed,
                    Verification(Unverified, Unverified, TrustedEvidence, TrustedEvidence, measured))
    else
      VerifiedUsage(None, None, None, None, elapsed,
                    Verification(Unverified, Unverified, Unverified, Unverified, measured))
  }

  /** Everything the meter reads in one invocation. */
  datatype Readings = Readings(trusted: bool, start: ClockReading, end: ClockReading, evidence: EvidenceReading)
  {
    predicate Valid() {
      evidence.Evidence? ==> evidence.cost >= 0.0
    }

    function Usage(): (u: VerifiedUsage)
      requires Valid()
      ensures u.Valid() && u.bytes.None? && u.storage.None?
    {
      FinalUsage(start, end, trusted, evidence)
    }
  }

  // ------------------------------------------------------------ budget reasons

  datatype Dimension = DownloadBytes | LocalStorage | ApiCalls | ExternalCost | ElapsedTime

  datatype Reason =
    | NotVerified(dimension: Dimension)
    | ExceedsBudget(dimension: Dimension)
    | BytesMismatch | StorageMismatch | HashMismatch
    | ConnectorQuarantined
    | InvocationFailed | ReceiptInvalid | UnsafeOutput
    | ChangedBeforePromotion | ChangedDuringPublication
    | StateInvalid | Residue | ConflictingRequest | NoLongerSafe | NoLongerMatches
    | PolicyGate | RiskGate

  datatype Limit = Limit(dimension: Dimension, value: Option<real>, limit: real)

  function AsReal(n: Option<nat>): Option<real> {
    if n.None? then None else Some(n.value as real)
  }

  function Limits(budget: Budget, usage: VerifiedUsage): seq<Limit> {
    [ Limit(DownloadBytes, AsReal(usage.bytes), budget.bytes as real),
      Limit(LocalStorage, AsReal(usage.storage), budget.storage as real),
      Limit(ApiCalls, AsReal(usage.calls), budget.calls as real),
      Limit(ExternalCost, usage.cost, budget.cost),
      Limit(ElapsedTime, AsReal(usage.elapsed), budget.elapsed as real) ]
  }

  /** Verified and within the budget in all five dimensions. */
  predicate WithinBudget(budget: Budget, usage: VerifiedUsage) {
    && usage.bytes.Some? && usage.bytes.value <= budget.bytes
    && usage.storage.Some? && usage.storage.value <= budget.storage
    && usage.calls.Some? && usage.calls.value <= budget.calls
    && usage.cost.Some? && usage.cost.value <= budget.cost
    && usage.elapsed.Some? && usage.elapsed.value <= budget.elapsed
  }

  function LimitReasons(l: Limit): seq<Reason> {
    if l.value.None? then [NotVerified(l.dimension)]
    else if l.value.value > l.limit then [ExceedsBudget(l.dimension)]
    else []
  }

  function AllReasons(limits: seq<Limit>): seq<Reason> {
    if limits == [] then [] else AllReasons(limits[..|limits| - 1]) + LimitReasons(limits[|limits| - 1])
  }

  function UsageReasons(budget: Budget, usage: VerifiedUsage): seq<Reason> {
    AllReasons(Limits(budget, usage))
  }

  /** A reason is given for exactly the dimensions that are unverified or over budget,
      and no other reason. */
  lemma UsageReasonsExactly(budget: Budget, usage: VerifiedUsage)
    ensures var reasons := UsageReasons(budget, usage);
            && (NotVerified(DownloadBytes) in reasons <==> usage.bytes.None?)
            && (NotVerified(LocalStorage) in reasons <==> usage.storage.None?)
            && (NotVerified(ApiCalls) in reasons <==> usage.calls.None?)
            && (NotVerified(ExternalCost) in reasons <==> usage.cost.None?)
            && (NotVerified(ElapsedTime) in reasons <==> usage.elapsed.None?)
            && (ExceedsBudget(DownloadBytes) in reasons <==> usage.bytes.Some? && usage.bytes.value > budget.bytes)
            && (ExceedsBudget(LocalStorage) in reasons <==> usage.storage.Some? && usage.storage.value > budget.storage)
            && (ExceedsBudget(ApiCalls) in reasons <==> usage.calls.Some? && usage.calls.value > budget.calls)
            && (ExceedsBudget(ExternalCost) in reasons <==> usage.cost.Some? && usage.cost.value > budget.cost)
            && (ExceedsBudget(ElapsedTime) in reasons <==> usage.elapsed.Some? && usage.elapsed.value > budget.elapsed)
            && (forall r | r in reasons :: r.NotVerified? || r.ExceedsBudget?)
            && (reasons == [] <==> WithinBudget(budget, usage))
  {
    hide AllReasons;
    var limits := Limits(budget, usage);
    assert limits[0].dimension == DownloadBytes && limits[1].dimension == LocalStorage &&
      limits[2].dimension == ApiCalls;
    assert limits[3].dimension == ExternalCost && limits[4].dimension == ElapsedTime;
    hide UsageReasons, Limits;
    DimensionReasons(budget, usage, 0);
    DimensionReasons(budget, usage, 1);
    DimensionReasons(budget, usage, 2);
    DimensionReasons(budget, usage, 3);
    DimensionReasons(budget, usage, 4);
    OnlyLimitReasons(budget, usage);
  }

  /** Each dimension has one limit, so its reasons come from that limit alone. */
  lemma DimensionReasons(budget: Budget, usage: VerifiedUsage, k: nat)
    requires k < 5
    ensures var l := Limits(budget, usage)[k];
            && (NotVerified(l.dimension) in UsageReasons(budget, usage) <==> l.value.None?)
            && (ExceedsBudget(l.dimension) in UsageReasons(budget, usage) <==> l.value.Some? && l.value.value > l.limit)
  {
    var limits := Limits(budget, usage);
    assert forall i | 0 <= i < 5 && limits[i].dimension == limits[k].dimension :: i == k;
    hide Limits;
    AllReasonsMember(limits, NotVerified(limits[k].dimension));
    AllReasonsMember(limits, ExceedsBudget(limits[k].dimension));
  }

  lemma OnlyLimitReasons(budget: Budget, usage: VerifiedUsage)
    ensures forall r | r in UsageReasons(budget, usage) :: r.NotVerified? || r.ExceedsBudget?
    ensures UsageReasons(budget, usage) == [] <==> WithinBudget(budget, usage)
  {
    var limits, reasons := Limits(budget, usage), UsageReasons(budget, usage);
    hide AllReasons;
    forall r | r in reasons ensures r.NotVerified? || r.ExceedsBudget? {
      AllReasonsMember(limits, r);
    }
    AllWithin(budget, usage);
    AllReasonsEmpty(limits);
  }

  lemma {:induction false} AllReasonsMember(limits: seq<Limit>, r: Reason)
    ensures r in AllReasons(limits) <==> exists k | 0 <= k < |limits| :: r in LimitReasons(limits[k])
  {
    hide LimitReasons;
    if limits != [] {
      var init := limits[..|limits| - 1];
      AllReasonsMember(init, r);
      assert forall k | 0 <= k < |init| :: init[k] == limits[k];
    }
  }

  lemma {:induction false} AllReasonsEmpty(limits: seq<Limit>)
    ensures AllReasons(limits) == [] <==>
              forall k | 0 <= k < |limits| :: limits[k].value.Some? && limits[k].value.value <= limits[k].limit
  {
    if limits != [] {
      var init := limits[..|limits| - 1];
      AllReasonsEmpty(init);
      assert forall k | 0 <= k < |init| :: init[k] == limits[k];
    }
  }

  lemma AllWithin(budget: Budget, usage: VerifiedUsage)
    ensures WithinBudget(budget, usage)
       <==> forall k | 0 <= k < 5 :: var l := Limits(budget, usage)[k]; l.value.Some? && l.value.value <= l.limit
  {
    var limits := Limits(budget, usage);
    if forall k | 0 <= k < 5 :: limits[k].value.Some? && limits[k].value.value <= limits[k].limit {
      assert limits[0].value.Some? && limits[1].value.Some? && limits[2].value.Some?;
      assert limits[3].value.Some? && limits[4].value.Some?;
    }
  }

  lemma AllReasonsSnoc(limits: seq<Limit>, n: nat)
    requires 0 < n <= |limits|
    ensures AllReasons(limits[..n]) == AllReasons(limits[..n - 1]) + LimitReasons(limits[n - 1])
  {
    assert limits[..n][..n - 1] == limits[..n - 1];
  }

  /** The source's loop over the five dimensions: a reason for each violated one, in order. */
  method ActualUsageReasons(budget: Budget, usage: VerifiedUsage) returns (reasons: seq<Reason>)
    ensures reasons == UsageReasons(budget, usage)
    ensures reasons == [] <==> WithinBudget(budget, usage)
  {
    var limits := Limits(budget, usage);
    reasons := [];
    for i := 0 to |limits|
      invariant reasons == AllReasons(limits[..i])
    {
      AllReasonsSnoc(limits, i + 1);
      var l := limits[i];
      if l.value.None? {
        reasons := reasons + [NotVerified(l.dimension)];
      } else if l.value.value > l.limit {
        reasons := reasons + [ExceedsBudget(l.dimension)];
      }
    }
    assert limits[..|limits|] == limits;
    UsageReasonsExactly(budget, usage);
  }

  // ------------------------------------------------------- receipts and records

  /** A digest carries the bytes it was taken of, so equal digests mean equal bytes. */
  datatype Digest = Sha256(content: seq<int>)

  datatype Receipt = Receipt(
    connectorId: string, connectorVersion: string, source: string, license: string,
    bytes: nat, storage: nat, calls: nat, cost: real, elapsed: nat, sha256: Digest, reasons: seq<Reason>)
  {
    /** A receipt is quarantined exactly when it carries reasons. */
    predicate Quarantined() {
      reasons != []
    }

    function Quarantine(why: seq<Reason>): (r: Receipt)
      requires why != []
      ensures r.Quarantined() && r.reasons == why && r.(reasons := reasons) == this
    {
      this.(reasons := why)
    }
  }

  datatype Measured = Measured(bytes: nat, storage: nat, sha256: Digest, inode: nat)

  function MeasurementMismatches(receipt: Receipt, measured: Measured): (reasons: seq<Reason>)
    ensures reasons == [] <==>
            receipt.bytes == measured.bytes && receipt.storage == measured.storage && receipt.sha256 == measured.sha256
    ensures BytesMismatch in reasons <==> receipt.bytes != measured.bytes
    ensures StorageMismatch in reasons <==> receipt.storage != measured.storage
    ensures HashMismatch in reasons <==> receipt.sha256 != measured.sha256
    ensures forall r | r in reasons :: r in {BytesMismatch, StorageMismatch, HashMismatch}
  {
    (if receipt.bytes != measured.bytes then [BytesMismatch] else []) +
    (if receipt.storage != measured.storage then [StorageMismatch] else []) +
    (if receipt.sha256 != measured.sha256 then [HashMismatch] else [])
  }

  /** Every usage claim of the connector replaced by what the gateway measured. */
  function ReceiptWithMeasurement(receipt: Receipt, measured: Measured, usage: VerifiedUsage): (r: Receipt)
    requires usage.Valid() && usage.FullyVerified()
    ensures UsageMatchesReceipt(usage, r) && !r.Quarantined() && r.sha256 == measured.sha256
    ensures r.connectorId == receipt.connectorId && r.connectorVersion == receipt.connectorVersion
    ensures r.source == receipt.source && r.license == receipt.license
  {
    receipt.(bytes := usage.bytes.value, storage := usage.storage.value, calls := usage.calls.value,
             cost := usage.cost.value, elapsed := usage.elapsed.value, sha256 := measured.sha256, reasons := [])
  }

  predicate UsageMatchesReceipt(usage: VerifiedUsage, r: Receipt) {
    && usage.bytes == Some(r.bytes) && usage.storage == Some(r.storage) && usage.calls == Some(r.calls)
    && usage.cost == Some(r.cost) && usage.elapsed == Some(r.elapsed)
  }

  predicate MeasurementMatchesReceipt(measured: Measured, r: Receipt) {
    measured.bytes == r.bytes && measured.storage == r.storage && measured.sha256 == r.sha256
  }

  datatype Risk = Public | Sensitive | Private

  datatype Candidate = Candidate(source: string, license: string, description: string)

  /** The request fingerprint hashes exactly these fields (the connector id is
      part of the request key). */
  datatype Fingerprint = Fingerprint(connectorVersion: string, candidate: Candidate, risk: Risk)

  datatype Record = Record(
    fingerprint: Fingerprint, reasons: seq<Reason>, claimed: Option<Receipt>, verified: Option<Receipt>,
    measured: Option<Measured>, usage: Option<VerifiedUsage>)
  {
    predicate Accepted() {
      reasons == []
    }

    /** The audit model's status validator. */
    predicate Valid() {
      Accepted() ==>
        && verified.Some? && measured.Some? && usage.Some?
        && usage.value.Valid() && usage.value.FullyVerified()
        && !verified.value.Quarantined()
        && UsageMatchesReceipt(usage.value, verified.value)
        && MeasurementMatchesReceipt(measured.value, verified.value)
    }
  }
}
