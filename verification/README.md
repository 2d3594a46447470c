# Verification of envresearch's numerical, durable and validating core

This project models six parts of envresearch and proves what they promise, on all
inputs and over all runs.

1. **Covariances and design matrices.** The Schur-complement semidefiniteness test, the
   delta-method variance it guards, Gauss-Jordan inversion, the Jacobi eigenvalue
   iteration, the condition number and the variance inflation factors (`Reals`, `Sums`,
   `Quadratic`, `Extremes`, `PsdTest`, `DeltaMethod`, `Inversion`, `Rotation`, `Spectra`,
   `Jacobi`, `ConditionNumber`, `Centering`, `VarianceInflation`). Floats are reals, every tolerance is a
   parameter, square roots stay unevaluated or are a parameter with their defining
   property, and the rotation angle is any point of the unit circle that annihilates
   the chosen entry, which is all the arctangent supplies.
2. **Acquisition protocol.** Gateway, store and usage meter for one request (`Endings`,
   `Usage`, `Acquisition`, `RequestKeys`). The store is a record of the two output names, file
   contents, state, tombstone and audit trail. Between any two steps the call may crash
   or raise, and other parties may rewrite files and rebind the two names, though they
   never remove one. What connector, clock and evidence provider answer is on record, so
   receipts are tied to it, and disturbances are counted, so that an undisturbed call is
   proved to end in one determined way. The request lock makes calls for one request
   sequential.
3. **Resumable exit runner** over a content-addressed registry (`ExitRegistry`,
   `ExitRunner`, `Ordering`). Crashes and failures may fall between any two steps, and
   between any two registry operations other processes may advance whatever this one has
   not locked. In turn every change this process makes is proved to be one the others
   allow: it moves only pointers whose locks it holds at that moment. What the analysis
   service shows is on record, so success means it was asked in that call. A digest is
   modelled as the value it was taken of, so equal digests mean equal contents.
4. **Pointers, claims and reports.** JSON pointers and string leaves, the two artifact
   validators, the current-claim dictionary, the report codec and the report binding
   (`Text`, `JsonPointers`, `Artifacts`, `ClaimIntegrity`, `BlindClaims`,
   `CurrentClaims`, `ReportCodec`, `ClaimReport`). The pattern-matching judgements on
   text and the digests are parameters.
5. **Comparators, frames and closure.** The JSON and table comparators with their bounded
   collector, the batch-answer parser, and the package worklist (`Compare`,
   `CompareCsv`, `BatchFrames`, `DependencyEntries`, `FrozenLibrary`; `Sequences` and `Options` are shared).
6. **Validators against reconstruction.** Two row validators whose accepted data must
   rebuild to support that other records accept, and the quantiles (`RddSupport`,
   `ChoiceSupport`, `Quantiles`).

Code that changes state or arrays in place is written as classes and methods, proved
against functions on values; the laws are lemmas about those functions.

Four laws turn out to need a condition, and the condition is proved exact:

- the semidefiniteness test is an equivalence exactly at tolerance zero, and errs both
  ways at every other (`PsdTest.DecidesOnlyAtZero`, `PsdTest.ErrsBothWays`);
- the invalid-variance error of the delta method is unreachable exactly under
  `GradientsWithinTolerance` for symmetric entries, and only for a zero numerator once
  entries may differ within the closeness test, because the variance reads an entry of
  the upper triangle that the test never certifies (`DeltaMethod.NeverInvalidExactly`,
  `DeltaMethod.NeverInvalidForAnyExactly`);
- a passed claim report verifies exactly when its brief references are distinct, the one
  uniqueness the coverage check does not ask for (`ClaimReport.PassedReportVerifies`,
  `ClaimReport.SharedBriefDoesNotVerify`);
- the batch parser accepts exactly the framed answers only while the sizes it reads are
  natural numbers, since an integer literal may carry a sign
  (`BatchFrames.AcceptsExactlyFrames`, `BatchFrames.NegativeSizeAccepted`).

## Model

| member | source | states |
|---|---|---|
| PsdTest.TestPositiveSemidefinite | src/envresearch/econometrics/_valuation_evidence.py:56-77 | the in-place elimination on a copy answers exactly the recursive test, for every square matrix and tolerance |
| PsdTest.EliminateInPlace | src/envresearch/econometrics/_valuation_evidence.py:70-76 | the two inner loops subtract the rank-one term from the trailing block and change nothing else |
| PsdTest.AcceptedFormBound | src/envresearch/econometrics/_valuation_evidence.py:56-77 | acceptance at tolerance tau gives x'Ax >= -tau (sum abs x)^2 for every x, where A is the symmetric matrix in the lower triangle |
| PsdTest.AcceptsIffSemidefinite | src/envresearch/econometrics/_valuation_evidence.py:56-77 | at tolerance zero the test accepts exactly the positive semidefinite matrices |
| PsdTest.RejectsHasNegative | src/envresearch/econometrics/_valuation_evidence.py:56-77 | a rejection at tolerance zero comes with a vector of negative form |
| PsdTest.RejectsHasSmallForm | src/envresearch/econometrics/_valuation_evidence.py:56-77 | at any tolerance tau a rejected matrix has a nonzero x with x'Ax <= tau x'x, so the test is bounded from both sides |
| PsdTest.DecidesOnlyAtZero | src/envresearch/econometrics/_valuation_evidence.py:58-77 | the test is equivalent to semidefiniteness, over all sizes and matrices, if and only if the tolerance is zero |
| PsdTest.ErrsBothWays | src/envresearch/econometrics/_valuation_evidence.py:58-77 | every positive tolerance accepts some matrix that is not semidefinite, and rejects some that is, even a positive definite one |
| PsdTest.PositiveToleranceRejectsSemidefinite | src/envresearch/econometrics/_valuation_evidence.py:58-77 | the shipped tolerance 1e-10 rejects a concrete matrix that is positive definite: its form is positive at every nonzero vector |
| DeltaMethod.VarianceIsForm | src/envresearch/econometrics/_valuation_welfare.py:186-194 | the variance is the certified form at the two gradients plus what the entry read adds over the certified one |
| DeltaMethod.GradientsAreSlopes | src/envresearch/econometrics/_valuation_welfare.py:184-185 | the two gradients, and no other numbers, are the slopes of -numerator/denominator: linear in the numerator, and in the denominator up to a second-order remainder |
| DeltaMethod.OutcomeExactly | src/envresearch/econometrics/_valuation_welfare.py:173-197 | every outcome for every input: an unknown term, a zero denominator, or the clamped form of the covariance, at the two terms' own entries, in those slopes |
| DeltaMethod.VarianceBound | src/envresearch/econometrics/_valuation_welfare.py:181-197 | every accepted covariance bounds the variance below by -tau (abs g_n + abs g_d)^2 less that slack, which is zero for a lower-triangle or mirrored entry |
| DeltaMethod.ZeroToleranceNeverInvalid | src/envresearch/econometrics/_valuation_welfare.py:195-197 | at tolerance zero, for such an entry, the invalid-variance error is unreachable and the clamp to zero changes nothing; the gradients in the variance are the slopes of the ratio |
| DeltaMethod.NeverInvalidExactly | src/envresearch/econometrics/_valuation_welfare.py:195-196 | over all exactly symmetric accepted covariances the error is unreachable if and only if the numerator is zero or tau (abs g_n + abs g_d)^2 is within the variance tolerance |
| DeltaMethod.ShippedTolerancesCanFail | src/envresearch/econometrics/_valuation_welfare.py:195-196 | with the shipped tolerances the ratio 1/1 fails on some accepted covariance |
| DeltaMethod.NeverInvalidForAnyExactly | src/envresearch/econometrics/_valuation_evidence.py:94-112 | over everything the validators accept, nearly symmetric entries included, the error is unreachable if and only if the numerator is zero |
| Inversion.PivotRow | src/envresearch/econometrics/_valuation_diagnostics.py:270-270 | the first row, from the column's own down, whose entry in the column is largest in absolute value |
| Inversion.ReduceColumn | src/envresearch/econometrics/_valuation_diagnostics.py:273-284 | one column of swap, division and clearing keeps the kernel of the augmented rows and makes one more unit column |
| Inversion.SwapKeepsKernel | src/envresearch/econometrics/_valuation_diagnostics.py:273-273 | swapping rows keeps every linear relation between the halves |
| Inversion.DivideKeepsKernel | src/envresearch/econometrics/_valuation_diagnostics.py:274-275 | dividing the pivot row keeps every linear relation |
| Inversion.ClearKeepsKernel | src/envresearch/econometrics/_valuation_diagnostics.py:276-284 | clearing the other rows keeps every linear relation |
| Inversion.ReducedIsInverse | src/envresearch/econometrics/_valuation_diagnostics.py:263-285 | once the left half is the identity the right half is a two-sided inverse |
| Inversion.ZeroPivotsSingular | src/envresearch/econometrics/_valuation_diagnostics.py:270-272 | a column of zero pivots exhibits a nonzero vector that the matrix maps to zero |
| Inversion.Invert | src/envresearch/econometrics/_valuation_diagnostics.py:263-285 | a returned matrix R has R A = I and A R = I for every size; at pivot threshold zero a matrix is returned exactly when A is nonsingular; at a positive one the error exhibits an x with an entry 1 that A maps below the threshold in every coordinate |
| Inversion.SmallPivotsNearlySingular | src/envresearch/econometrics/_valuation_diagnostics.py:270-272 | a column without a usable pivot exhibits that vector, since unused rows still carry their original unit columns |
| Inversion.ClearKeepsUntouched | src/envresearch/econometrics/_valuation_diagnostics.py:276-284 | clearing leaves the unit columns of the unused rows as they were |
| Rotation.RotatedTrace | src/envresearch/econometrics/_valuation_diagnostics.py:302-310 | a rotation keeps the trace |
| Rotation.RotatedFrobenius | src/envresearch/econometrics/_valuation_diagnostics.py:302-310 | a rotation keeps the Frobenius norm |
| Rotation.RotatedOff | src/envresearch/econometrics/_valuation_diagnostics.py:302-310 | a rotation lowers the off-diagonal square sum by exactly 2 a_lr^2 |
| Rotation.RotatedOffShrinks | src/envresearch/econometrics/_valuation_diagnostics.py:291-310 | with the largest entry chosen, off^2 shrinks by at least the factor 1 - 2/(n(n-1)) |
| Rotation.RotatedQuad | src/envresearch/econometrics/_valuation_diagnostics.py:302-310 | the rotated form at x is the original form at the turned vector |
| Jacobi.FindLargestPair | src/envresearch/econometrics/_valuation_diagnostics.py:291-295 | the pair above the diagonal with the largest absolute entry, and the first such pair in generation order |
| Jacobi.RotateInPlace | src/envresearch/econometrics/_valuation_diagnostics.py:301-310 | the cell updates, in the source's order, store exactly the rotated matrix |
| Jacobi.RotatedConserved | src/envresearch/econometrics/_valuation_diagnostics.py:288-311 | every iteration keeps symmetry, trace, Frobenius norm and orthogonal similarity to the start through the chain of rotations made so far |
| Jacobi.RotatedShrunk | src/envresearch/econometrics/_valuation_diagnostics.py:288-311 | k rotations leave at most ((N-2)/N)^k of the starting off-diagonal sum, N = n(n-1) |
| Jacobi.LimitShrinks | src/envresearch/econometrics/_valuation_diagnostics.py:290-290 | the iteration limit is enough: a run that uses it up has shrunk the off-diagonal sum at least 3^100 times, for every size |
| Jacobi.EndsNearlyDiagonal | src/envresearch/econometrics/_valuation_diagnostics.py:290-297 | a start whose off-diagonal square sum is below 2 * 3^100 * eps^2 ends, limit or not, with every off-diagonal entry below eps |
| Jacobi.EveryRunBounds | src/envresearch/econometrics/_valuation_diagnostics.py:288-311 | no run is left out: each eps from the tolerance up that the limit reaches bounds the form of the start by the values returned, up to n eps |
| Jacobi.ConservedSemidefinite | src/envresearch/econometrics/_valuation_diagnostics.py:226-230 | a semidefinite start never produces a negative diagonal entry |
| Jacobi.SymmetricEigenvalues | src/envresearch/econometrics/_valuation_diagnostics.py:288-311 | the iteration conserves the start, converges at that rate, and stops at the limit or below the tolerance, always below it when the start is within reach of the limit; the values are exactly the eigenvalues of the start once nothing is left off the diagonal, and in every run they bound its form on unit vectors up to n eps, for the tolerance or whatever larger eps the limit reaches |
| Jacobi.DiagonalAttained | src/envresearch/econometrics/_valuation_diagnostics.py:311-311 | each returned value is the form of the start at a unit vector, in every case |
| Jacobi.DiagonalListsEigenvalues | src/envresearch/econometrics/_valuation_diagnostics.py:311-311 | with a diagonal result, a number is an eigenvalue of the start if and only if it is returned |
| Jacobi.ValuesBoundForm | src/envresearch/econometrics/_valuation_diagnostics.py:296-311 | when everything off the diagonal is within the tolerance, every unit y has least - n tol <= y'Ay <= greatest + n tol |
| Spectra.SimilarStep | src/envresearch/econometrics/_valuation_diagnostics.py:302-310 | a rotation extends the chain: b = Q^-1 a Q for the product Q of all rotations |
| Spectra.ChainUndone | src/envresearch/econometrics/_valuation_diagnostics.py:302-310 | the map Q of a chain of rotations is a bijection |
| Spectra.ChainKeepsProducts | src/envresearch/econometrics/_valuation_diagnostics.py:302-310 | the map Q keeps all inner products |
| Spectra.ChainLinear | src/envresearch/econometrics/_valuation_diagnostics.py:302-310 | the map Q and its inverse are linear |
| Spectra.SimilarForm | src/envresearch/econometrics/_valuation_diagnostics.py:302-310 | the form of the rotated matrix at x is the form of the start at Q x |
| Spectra.ResidualIsOff | src/envresearch/econometrics/_valuation_diagnostics.py:302-311 | in every case, the limit included, the i-th returned value misses being an eigenvalue at the unit vector Q e_i by exactly the off-diagonal part of row i |
| ConditionNumber.GramForm | src/envresearch/econometrics/_valuation_diagnostics.py:224-227 | the form of the Gram matrix at x is the squared length of the design's image of x |
| ConditionNumber.ZeroDiagonalIsDependence | src/envresearch/econometrics/_valuation_diagnostics.py:228-231 | a zero eigenvalue is a unit combination of the columns that vanishes on every row |
| ConditionNumber.ComputeConditionNumber | src/envresearch/econometrics/_valuation_diagnostics.py:222-232 | the ratio is greatest over least of a diagonal orthogonally similar to the Gram matrix, is at least one, and is the ratio of two squared lengths the design gives unit vectors; in every run no unit vector is stretched beyond those extremes by more than k eps, for the tolerance or whatever larger eps the iteration limit reaches from the Gram matrix; the error is raised exactly when the least is zero, and then the columns are dependent |
| VarianceInflation.InverseDiagonal | src/envresearch/econometrics/_valuation_diagnostics.py:259-260 | the inverse of a semidefinite matrix with unit diagonal has no diagonal entry below one |
| VarianceInflation.CorrelationSemidefinite | src/envresearch/econometrics/_valuation_diagnostics.py:249-258 | the correlation matrix, entry by entry as computed, is symmetric and semidefinite with unit diagonal |
| Centering.VaryingLists | src/envresearch/econometrics/_valuation_diagnostics.py:236-240 | exactly the columns that take two different values are listed, each once and in order |
| Centering.CenteredIsCentering | src/envresearch/econometrics/_valuation_diagnostics.py:244-247 | each centered column sums to zero and differs from its design column by one constant |
| Centering.ResidualsLeast | src/envresearch/econometrics/_valuation_diagnostics.py:244-247 | for every combination of the columns no intercept leaves a smaller sum of squared residuals than the centered columns do, and one attains it |
| VarianceInflation.InverseBoundsCoordinate | src/envresearch/econometrics/_valuation_diagnostics.py:259-260 | for every x, the form of the correlation at x times the p-th diagonal entry of its inverse is at least x_p^2 |
| VarianceInflation.FactorIsInflation | src/envresearch/econometrics/_valuation_diagnostics.py:235-260 | a diagonal entry of the inverse correlation is a variance inflation: the least squared length of any combination with weight one on column p, times the entry, is the squared length of column p, and it is attained |
| VarianceInflation.InflationOnDesign | src/envresearch/econometrics/_valuation_diagnostics.py:235-260 | the factor is an inflation on the design itself: over all combinations with weight one on column p and all intercepts, the least sum of squared residuals times the factor is the least sum of squares of that column around an intercept, and both are attained |
| VarianceInflation.SingularExactly | src/envresearch/econometrics/_valuation_diagnostics.py:249-259 | the correlation matrix is singular if and only if some nonzero combination of the varying columns is constant over the rows |
| VarianceInflation.MaxVif | src/envresearch/econometrics/_valuation_diagnostics.py:235-260 | every factor returned is at least one and is the largest inflation, intercept included, of the varying columns of the design; each inflation is a diagonal entry of a two-sided inverse of their correlation matrix; at a zero pivot threshold a factor is returned exactly when the columns are not collinear with an intercept, and at a positive one the error means that matrix is nearly singular |
| Usage.VerifiedUsage.WithFileMeasurement | src/envresearch/connectors/usage_meter.py:80-108 | measuring the file fixes bytes and storage, keeps the other dimensions, and makes it fully verified exactly when calls, cost and elapsed time already are |
| Usage.ElapsedSeconds | src/envresearch/connectors/usage_meter.py:277-280 | whole seconds rounded up, and nothing when a reading is missing or the clock went back |
| Usage.FinalUsage | src/envresearch/connectors/usage_meter.py:183-206 | the usage fixed on any exit is valid, takes elapsed time only from a trusted clock, and calls and cost only from evidence |
| Usage.ActualUsageReasons | src/envresearch/connectors/usage_meter.py:217-245 | the loop gives the reasons of the five dimensions in order, none exactly within the budget |
| Usage.UsageReasonsExactly | src/envresearch/connectors/usage_meter.py:217-245 | a reason names exactly the dimension that is unverified or over its own budget, for each of the five |
| Usage.MeasurementMismatches | src/envresearch/connectors/acquisition_receipts.py:88-99 | each reason exactly when its claim differs, none when bytes, storage and digest all agree |
| Usage.ReceiptWithMeasurement | src/envresearch/connectors/acquisition_receipts.py:57-85 | the receipt carries only measured usage and digest, keeps its identity, and is not quarantined |
| Acquisition.AcquisitionStore.Exists | src/envresearch/connectors/acquisition_store.py:99-104 | whether a staging or payload name is bound |
| Acquisition.AcquisitionStore.Prepare | src/envresearch/connectors/acquisition_store.py:106-134 | exclusive creation: succeeds only when the staging name was free, and the names stay occupied from then on |
| Acquisition.AcquisitionStore.MeasureDescriptor | src/envresearch/connectors/acquisition_store.py:328-371 | the bytes, size and digest of the open file, with the given name still bound to it |
| Acquisition.AcquisitionStore.Measure | src/envresearch/connectors/acquisition_store.py:170-180 | the bytes, size and digest of the file the payload name is bound to |
| Acquisition.AcquisitionStore.VerifyPinned | src/envresearch/connectors/acquisition_store.py:205-223 | the name is bound to the pinned file, which still measures the same |
| Acquisition.AcquisitionStore.Promote | src/envresearch/connectors/acquisition_store.py:191-203 | succeeds only when no payload name existed, and then the payload name is bound to the pinned file, measured the same before and after |
| Acquisition.AcquisitionStore.PublishState | src/envresearch/connectors/acquisition_store.py:237-259 | success means the audited record is the one visible state and the output still matches; undisturbed it succeeds; the output is measured before, between writing and renaming the record, and after; a single failure never leaves a provisional or visible state without a tombstone |
| Acquisition.AcquisitionStore.RenameToFinal | src/envresearch/connectors/acquisition_store.py:243-250 | the rename succeeds only when no state was visible |
| Acquisition.AcquisitionStore.LoadState | src/envresearch/connectors/acquisition_store.py:261-274 | the accepted state, unless a tombstone hides it |
| Acquisition.GatewayUsageSession.Invoke | src/envresearch/connectors/usage_meter.py:165-209 | the usage is fixed on every exit from what clock and evidence provider said; on return the connector ran once and the result is what it returned |
| Acquisition.ConnectorGateway.Acquire | src/envresearch/connectors/gateway.py:72-99 | the policy and risk gates decide first; then an undisturbed call ends in one determined way, and a disturbed one keeps every promise: a receipt returned is durable, within the budget and backed by what the connector itself returned, not quarantined and agreeing with the file in size and digest |
| Acquisition.ConnectorGateway.AcquirePrepared | src/envresearch/connectors/gateway.py:138-294 | the connector's result is validated, measured and judged; undisturbed, the exit is determined by what it returned, what it left on the disk and what the meter read |
| Acquisition.ConnectorGateway.Judge | src/envresearch/connectors/gateway.py:201-294 | a receipt needs a claim that is not quarantined and agrees with the measurement, verified usage within the budget, and a promoted, recorded and published file; undisturbed, the verdict is determined; the missing-receipt error cannot occur |
| Acquisition.ConnectorGateway.Accept | src/envresearch/connectors/gateway.py:258-294 | recording and publishing a promoted output returns its receipt only once it is the durable state of this request; otherwise a gate with an audited reason |
| Acquisition.ConnectorGateway.ReuseExisting | src/envresearch/connectors/gateway.py:296-372 | undisturbed, the recorded receipt is returned exactly for the same request, within the budget, when the file still measures as recorded, and otherwise the gate that says why |
| Acquisition.JudgedReasonsExactly | src/envresearch/connectors/gateway.py:210-213 | there is nothing to object to exactly when the claim is not quarantined, agrees with the file and the usage is verified and within the budget; each reason means what it says |
| Acquisition.Campaign | src/envresearch/connectors/gateway.py:72-136 | over any sequence of calls, crashes and interference included, the connector runs at most once, every receipt returned is the same durable one, and the claim the connector made in that one run stands behind it |
| RequestKeys.IdentityInjective | src/envresearch/connectors/acquisition_store.py:292-302 | safe connector and request ids never share an identity text |
| ExitRegistry.Registry.Publish | src/envresearch/econometrics/exit_registry.py:59-70 | a payload is stored under its own digest, and an existing object is never changed |
| ExitRegistry.Registry.Load | src/envresearch/econometrics/exit_registry.py:112-123 | a loaded object is the one its digest names |
| ExitRegistry.Registry.SetCurrent | src/envresearch/econometrics/exit_registry.py:125-130 | one pointer is replaced atomically or not at all |
| ExitRegistry.Registry.Current | src/envresearch/econometrics/exit_registry.py:132-149 | the pointer's value, authenticated |
| ExitRegistry.Registry.RestoreCurrentIfUnchanged | src/envresearch/econometrics/exit_registry.py:151-175 | a pointer goes back exactly when it is still the caller's own update or already back |
| ExitRegistry.NoWaitingCycle | src/envresearch/econometrics/exit_registry.py:176-191 | processes that wait only for an analysis lock while holding run locks, or hold nothing, never wait for each other in a circle, however many they are |
| ExitRegistry.Registry.Acquire | src/envresearch/econometrics/exit_registry.py:176-191 | a lock is asked for only in that order and never twice, and is held exactly on success |
| ExitRunner.RegistryAnalysisExecutor.Execute | src/envresearch/econometrics/exit_runner.py:163-216 | the analysis returned is the one bound to exactly this case and its data, whose input is the one the case describes; it was run at most once, and not at all for a bound case; a binding is never replaced; locks held are given back and no pointer they protect has moved; a ready case fails only if something disturbs it or the service shows what it must not |
| ExitRunner.RegistryAnalysisExecutor.ExecuteLocked | src/envresearch/econometrics/exit_runner.py:163-216 | a bound case is not run again; an unmutated case has had its data binding inspected since, a mutated one its mutation |
| ExitRunner.RegistryAnalysisExecutor.Bind | src/envresearch/econometrics/exit_runner.py:188-203 | the pointer that no one has set then names exactly the published binding, and only that pointer, under its lock, was moved here |
| ExitRunner.RegistryAnalysisExecutor.Verify | src/envresearch/econometrics/exit_runner.py:230-270 | success means the binding is of exactly this case, data and analysis, whoever acts between its reads, and that the service was asked during this call and showed what the case's role demands |
| ExitRunner.ResumableExitRunner.State | src/envresearch/econometrics/exit_runner.py:89-111 | the state resumed from is exactly the durable run; of its checks only the manifest generation can fail, and it does not when the generations agree |
| ExitRunner.ResumableExitRunner.Resume | src/envresearch/econometrics/exit_runner.py:57-63 | the run to continue is still exactly the durable one, and for each of its receipts the service was asked again during this call and showed what the case demands |
| ExitRunner.ResumableExitRunner.VerifyReceipts | src/envresearch/econometrics/exit_runner.py:62-63 | every receipt of the resumed run is verified anew: its case has an inspection logged in this call that fulfils its role |
| ExitRunner.ResumableExitRunner.Step | src/envresearch/econometrics/exit_runner.py:67-84 | one case is executed, verified, recorded and published: one more receipt, none lost |
| ExitRunner.ResumableExitRunner.Run | src/envresearch/econometrics/exit_runner.py:53-87 | a successful run covers every manifest case once, in case_id order, is the current one, and has had every receipt's evidence inspected in this very call; all its own changes keep to the locks it held; with ready cases it fails only if the registry is disturbed or the service does not show what it is asked for |
| ExitRunner.CompletedRunStays | src/envresearch/econometrics/exit_runner.py:53-87 | no later progress moves a completed run's pointer |
| ExitRunner.OthersAllow | src/envresearch/econometrics/exit_runner.py:53-87 | a change that keeps to its locks is interference that every process with other locks allows |
| ExitRunner.InterferenceTransitive | src/envresearch/econometrics/exit_runner.py:53-87 | any number of such changes by others is interference again |
| ExitRunner.Campaign | src/envresearch/econometrics/exit_runner.py:53-111 | under every crash schedule and interference the current run's receipts are the first k cases, each with the analysis bound to exactly that manifest case, at version k+1, k never decreases, completed runs agree and stay final, and every change made here kept to the locks held |
| Text.SplitJoin | src/envresearch/benchmarks/claim_integrity.py:340-352 | splitting a joined list of separator-free parts gives the parts back |
| Text.DecimalRoundTrip | src/envresearch/benchmarks/claim_integrity.py:336-337 | the decimal text of an index reads back as that index |
| JsonPointers.ParsePrint | src/envresearch/benchmarks/claim_integrity.py:340-356 | parsing inverts printing for every tuple of segments (sections 3 and 4 of RFC 6901) |
| JsonPointers.PrintParse | src/envresearch/benchmarks/claim_integrity.py:340-356 | printing inverts parsing on the pointer grammar claim usages must match |
| JsonPointers.PrintCanonical | src/envresearch/benchmarks/claim_integrity.py:340-343 | every printed pointer matches that grammar |
| JsonPointers.PointerInjective | src/envresearch/benchmarks/claim_integrity.py:340-343 | distinct tuples print to distinct pointers |
| JsonPointers.LeavesDistinct | src/envresearch/benchmarks/claim_integrity.py:322-337 | no two string leaves of a payload share a path |
| JsonPointers.LeafReached | src/envresearch/benchmarks/claim_integrity.py:322-337 | every emitted leaf is reached by its path in the payload |
| JsonPointers.ReachedListed | src/envresearch/benchmarks/claim_integrity.py:322-337 | every text reachable in the payload is emitted |
| JsonPointers.LeavesByPointerExact | src/envresearch/benchmarks/claim_integrity.py:205-205 | the dictionary of leaves drops nothing and maps a pointer to a text exactly when its segments reach it |
| JsonPointers.JsonValue | src/envresearch/econometrics/exit_evaluator.py:304-311 | the token loop computes the recursive walk |
| JsonPointers.WalkEmittedPointer | src/envresearch/econometrics/exit_evaluator.py:304-311 | walking any emitted pointer but the root's returns that leaf |
| JsonPointers.WalkStepExactly | src/envresearch/econometrics/exit_evaluator.py:308-310 | one step leads to an object's member by its unescaped key or to a list's item by its index, counted from either end, and nowhere else |
| JsonPointers.SelectorEvaluates | src/envresearch/econometrics/exit_evaluator.py:304-311 | a selector spelled by a printed pointer evaluates to what its segments select, numbers and containers included |
| ClaimIntegrity.GroupUsages | src/envresearch/benchmarks/claim_integrity.py:206-208 | each pointer is mapped to its usages in order |
| ClaimIntegrity.SingleUsages | src/envresearch/benchmarks/claim_integrity.py:215-215 | every pointer has one usage exactly when no two usages share a pointer |
| ClaimIntegrity.ValidateOrdinary | src/envresearch/benchmarks/claim_integrity.py:188-280 | the loops produce exactly the specified findings, in pointer order |
| ClaimIntegrity.OrdinaryPassesExactly | src/envresearch/benchmarks/claim_integrity.py:188-280 | no findings exactly when the usages are a bijection onto the source-dependent leaves, each with the leaf's hash and a current verified mapped claim |
| ClaimIntegrity.OrdinaryFindingsExactly | src/envresearch/benchmarks/claim_integrity.py:188-280 | a finding is listed if and only if what its code says of its pointer and claim holds |
| BlindClaims.FactsExact | src/envresearch/benchmarks/blind_claim_semantics.py:167-190 | the fact dictionary holds every fact_refs value under its own pointer and nothing else |
| BlindClaims.FactPointerIsLeaf | src/envresearch/benchmarks/blind_claim_semantics.py:186-190 | each fact pointer is the canonical pointer of the leaf it names |
| BlindClaims.BindUsages | src/envresearch/benchmarks/blind_claim_semantics.py:62-112 | the loop over used pointers: its findings and exactly the pointers left bound |
| BlindClaims.ValidateRecommendation | src/envresearch/benchmarks/blind_claim_semantics.py:30-142 | the validator produces exactly the specified findings |
| BlindClaims.RecommendationPassesExactly | src/envresearch/benchmarks/blind_claim_semantics.py:30-142 | no findings exactly when usages are a bijection onto nonempty, distinct, canonical fact_refs mapped to those same facts and no other leaf carries a prose marker |
| BlindClaims.RecommendationFindingsExactly | src/envresearch/benchmarks/blind_claim_semantics.py:30-142 | a finding is listed if and only if what its code says of its pointer and claim holds |
| CurrentClaims.MappedFacts | src/envresearch/benchmarks/claim_integrity.py:149-171 | a case keeps the facts of its only fact map, if that map binds the current sheet and brief, and none otherwise |
| CurrentClaims.Current | src/envresearch/benchmarks/claim_integrity.py:143-186 | a claim is mapped to a fact exactly when its id occurs once over all sheets and the map in force for its case lists it with that fact |
| ReportCodec.ReportRoundTrip | src/envresearch/benchmarks/claim_report.py:144-231 | decoding an encoded report gives back the same report |
| ReportCodec.ReconstructedIsWellFormed | src/envresearch/benchmarks/claim_report.py:179-231 | only well-formed reports are reconstructed, from any payload at all, and sealing one again loses nothing |
| ReportCodec.PayloadInjective | src/envresearch/benchmarks/claim_report.py:144-176 | different reports have different payloads |
| ClaimReport.Validate | src/envresearch/benchmarks/claim_integrity.py:81-140 | a report is built exactly when the coverage check passes; it lists exactly every artifact's findings against the claims the sheets and maps determine, in artifact order, is passed exactly when there are none, and records the generation exactly |
| ClaimReport.ReportOfReports | src/envresearch/benchmarks/claim_integrity.py:104-140 | the report holds the same references, sorted, a binding for each artifact with every leaf's own hash and every usage in order, and the validator version the artifacts call for |
| ClaimReport.CleanUsagesBind | src/envresearch/benchmarks/claim_integrity.py:188-203 | in a clean artifact of either kind every usage carries the exact hash of the leaf it names |
| ClaimReport.BindingRefs | src/envresearch/benchmarks/claim_report.py:118-122 | sorting the bindings and sorting the references agree |
| ClaimReport.PassedReportVerifies | src/envresearch/benchmarks/claim_report.py:109-141 | a passed report's binding is valid if and only if its brief references are pairwise distinct |
| ClaimReport.SharedBriefDoesNotVerify | src/envresearch/benchmarks/claim_report.py:109-124 | a valid generation whose two fact maps share a brief passes under every validator with a report that does not verify |
| ClaimReport.SealedReportVerifies | src/envresearch/benchmarks/claim_report.py:109-231 | a passed report that is sealed, read back and verified holds |
| Compare.DifferenceCollector.Add | src/envresearch/benchmarks/compare.py:61-87 | the collector counts every difference and keeps the first hundred |
| Compare.CompareJsonValue | src/envresearch/benchmarks/compare.py:182-222 | the recursion hands the collector exactly the specified differences, in order |
| Compare.CompareJson | src/envresearch/benchmarks/compare.py:149-155 | the result is the specified differences cut at one hundred, with their full count; matched exactly when the trees are equal up to tolerance |
| Compare.NoDifferencesExactly | src/envresearch/benchmarks/compare.py:182-222 | no difference exactly when keys, lengths and values agree and every number is within its own tolerance |
| Compare.DifferencesExactly | src/envresearch/benchmarks/compare.py:182-222 | a difference is listed if and only if the trees differ along some path, and it reports what the expected tree and then the actual one hold there, null for nothing, with the tolerance when both are numbers |
| Compare.IndexLocationNames | src/envresearch/benchmarks/compare.py:200-217 | different items have different locations |
| Compare.ZeroToleranceIsEquality | src/envresearch/benchmarks/compare.py:306-310 | with both tolerances zero only equal trees match |
| Compare.LooserNeverMore | src/envresearch/benchmarks/compare.py:306-339 | raising either tolerance never raises the total |
| CompareCsv.ReadTable | src/envresearch/benchmarks/compare.py:272-288 | a table is read exactly from a header without duplicates and rows of its width, and holds those rows |
| CompareCsv.CompareCsv | src/envresearch/benchmarks/compare.py:231-269 | the loops report exactly the specified differences; matched exactly for equal headers, equally many rows and every cell within tolerance |
| CompareCsv.CsvDifferencesExactly | src/envresearch/benchmarks/compare.py:231-269 | a difference is listed if and only if it reports an unequal header, unequal row counts or a cell outside its tolerance, expected value first |
| CompareCsv.CellLocationNames | src/envresearch/benchmarks/compare.py:255-268 | different cells have different locations |
| CompareCsv.LooserNeverMoreCsv | src/envresearch/benchmarks/compare.py:291-310 | raising either tolerance never raises the total of a table comparison |
| BatchFrames.IndexBlobs | scripts/publication_audit.py:94-115 | the loop over entries computes the recursive parse |
| BatchFrames.AcceptsExactlyFrames | scripts/publication_audit.py:94-115 | an answer is one frame per id, in order and nothing else, exactly when it parses to those blobs and every size read is a natural number |
| BatchFrames.GitAnswerParses | scripts/publication_audit.py:84-115 | git's own answer parses to the requested blobs whatever bytes they hold |
| BatchFrames.NegativeSizeAccepted | scripts/publication_audit.py:105-110 | without that condition the law fails: size -1 is accepted although nothing is framed |
| FrozenLibrary.ClosedPackages | src/envresearch/econometrics/frozen_r_library.py:205-232 | it ends on every input; it succeeds exactly when every package the required ones lead to, through what their DESCRIPTION fields name, can be selected, and then selects exactly those; a failure names a needed package and its fault |
| DependencyEntries.ReadEntryExactly | src/envresearch/econometrics/frozen_r_library.py:235-246 | an item reads as a package exactly when it is that name and an optional parenthesised requirement with any spaces around both, as blank exactly when it is all spaces, and is malformed otherwise |
| FrozenLibrary.DependencyNamesExactly | src/envresearch/econometrics/frozen_r_library.py:235-246 | the names are exactly those some comma-separated item of Depends, Imports or LinkingTo asks for, and reading fails exactly when one of those items is malformed |
| FrozenLibrary.InspectExactly | src/envresearch/econometrics/frozen_r_library.py:213-231 | a package is selected, from the first library that has it, exactly when every copy is readable and agrees in version and contents, its DESCRIPTION is complete and its own, and its dependency items read |
| FrozenLibrary.FaultMeans | src/envresearch/econometrics/frozen_r_library.py:213-231 | each failure says what is wrong with the copies or the DESCRIPTION that would be taken |
| FrozenLibrary.SelectionIsClosed | src/envresearch/econometrics/frozen_r_library.py:142-144 | no selected package asks for one outside base R that is not selected |
| FrozenLibrary.SelectAndCheck | src/envresearch/econometrics/frozen_r_library.py:142-144 | the closure check never fails on a successful selection |
| RddSupport.ValidateRdd | src/envresearch/econometrics/_causal_csv.py:164-192 | rows are accepted exactly when every cell reads and all windows are supported, with the first failing window reported |
| RddSupport.HalfDecides | src/envresearch/econometrics/_causal_csv.py:179-191 | the half-bandwidth check implies the main and the 1.5x checks, so it and the donut check decide |
| RddSupport.WindowFaultExactly | src/envresearch/econometrics/_causal_csv.py:176-191 | the first of the four windows without four distinct values on each side is the one reported |
| RddSupport.SupportSpelled | src/envresearch/econometrics/_causal_support.py:41-54 | each count of the rebuilt support is the number of rows, or of distinct values, in its own interval, with the cutoff on the right |
| RddSupport.DonutSpelled | src/envresearch/econometrics/_causal_support.py:41-54 | the donut counts are the side counts without the rows strictly within the radius |
| RddSupport.AcceptedSupportIsValid | src/envresearch/econometrics/_causal_support.py:41-54 | every accepted list rebuilds, through strict windows, to support the record accepts, nonempty donut sides included |
| ChoiceSupport.ValidateChoices | src/envresearch/econometrics/_valuation_csv.py:124-154 | rows are accepted exactly when they are well formed with distinct keys, each set has two or more alternatives and one choice, and every term varies within some set |
| ChoiceSupport.AcceptedChoicesReconcile | src/envresearch/econometrics/_valuation_support.py:121-137 | not-chosen count + groups = observations, 2 groups <= observations, respondents <= groups |
| ChoiceSupport.SupportSpelled | src/envresearch/econometrics/_valuation_support.py:121-137 | the rebuilt support counts rows, respondents, pairs of respondent and choice set, and rows not chosen |
| ChoiceSupport.AcceptedSupportIsValid | src/envresearch/econometrics/_valuation_evidence.py:277-291 | the rebuilt support meets the support record's validators |
| Quantiles.QuantileMonotone | src/envresearch/econometrics/_wave1_support.py:188-195 | a higher probability never gives a lower quantile |
| Quantiles.QuantileBetween | src/envresearch/econometrics/_wave1_support.py:188-195 | every quantile lies between the minimum and the maximum |
| Quantiles.QuantileInterpolates | src/envresearch/econometrics/_wave1_support.py:188-195 | between two neighbouring ranks a quantile is the straight-line interpolation of their two values |
| Quantiles.QuartilesOrdered | src/envresearch/econometrics/_wave1_evidence_models.py:65-69 | the rebuilt quartiles always satisfy the ordering validator |

## Left out

- Float rounding, overflow, infinities and NaN: all arithmetic is over exact reals, so a tolerance that overflows or a cell that parses to NaN is not modelled.
- File descriptors, symlink and inode checks, permissions, fsync and lock internals: exclusive create, rename without replace, atomic replace and mutual exclusion are primitives of the two stores.
- SHA-256, HMAC and signatures: digests are injective or parameters; that leaf digests are 64 lowercase hexadecimal characters is a hypothesis.
- Pydantic parsing, YAML, CSV tokenising, regular expressions and Unicode normalisation: parsed values, and the judgements made by patterns, are inputs.
- Timestamps on receipts and audit records, and the texts of error messages and finding details: no branch depends on them.
- R templates and execution, command lines, tables, Zotero and preflight checks: no code of theirs is needed by the laws above.
- Blind revision, workflow and enrollment transactions: their meaning rests on lifecycle and queue code that is not part of this model.
- Release gates, scoring thresholds, count diagnostics and single-record validators on their own: each is settled by reading one branch.
- The pointer walker inside blind_claim_semantics.py (lines 145-164 and 241-258), which does not escape its segments and guards candidates before they are stored.
- JsonPointers.WalkStep: a list index may carry a sign and underscores, but the surrounding spaces and non-ASCII digits that int() also takes are not modelled; emitted pointers never contain those.
- ReportCodec.DecodeRef: the version must be an integral number, while the source's lenient parsing also takes numeric text; encoded reports never contain that.
- ReportCodec.ReconstructedIsWellFormed: does not say that a payload re-encodes to itself, because findings and bindings may carry extra fields that decoding drops.
- PsdTest.AcceptedFormBound: speaks of the lower triangle, the only part the test reads; for entries that are exactly symmetric this is the matrix itself.
- Jacobi.SymmetricEigenvalues: for a start too far away for the limit to reach the tolerance (an off-diagonal square sum above about 10^24 at the shipped 1e-12) the form is bounded by the larger eps that is reached.
- Acquisition.Campaign: one request at a time; different requests share no names, which RequestKeys.IdentityInjective supports.
- ExitRunner.Campaign: verification of an analysis store is an input that may fail or raise at any time; reading a pointer together with the object it names is one step, since objects never change.
- Text.ReadInt: the integer literals of int() on ASCII words, without surrounding spaces or non-ASCII digits.
- BatchFrames.IndexBlobs: a header whose first field is not ASCII is reported as a different blob, where the source raises a decoding error.
- FrozenLibrary.ClosedPackages: the DESCRIPTION fields are read already; copying, freezing and the identity checks of the copied trees are not modelled.
