# FiberScope backend: a Dafny model

FiberScope locates faults in optical fibre from OTDR traces.  This project models its backend's
core and proves what its parts guarantee, alone and together.

* **Signal pipeline.** `OrderStatistics`, `Denoise`, `Distance`, `Detect` follow the array loops of
  the algorithms; `DetectLaws` proves what they yield on every trace.  `Compare` models the greedy
  matching, the unstable sort and the primary estimate; `CompareLaws` and `PrimaryLaws` are about them.
* **Localization cases.** `CaseRepository` is the table with its conditional updates, and
  `CaseProtocol` the concurrent protocol: every request is a call with its own program counter and
  local copies, and one step is one read or one transaction of one call, a clock tick, or the loss
  of a call.  `CaseWriteLaws` says what every transaction writes, field by field; it,
  `CaseLaws`, `CaseReviewLaws` and `CaseLeaseLaws` hold in every run; `CaseWitness` gives runs that
  show why their conditions are needed.
* **Traces and event markers.** `TraceRepository`, `EventRepository`, `EvidenceProtocol` and
  `EvidenceService` have the same shape for imports, detections and reviews; `EvidenceWriteLaws`,
  `EvidenceLaws`, `EvidenceReviewLaws` and `DetectionReadiness` hold in every run, and `EvidenceWitness` gives runs.
* **The whole system.** `WholeSystem` runs both protocols over one store; it and `Provenance` prove what
  crosses them.  `CaseService` is the case service's own control flow on that store: each of its
  transactions is one step, and a whole call, with anything happening in between (`Others`, whose
  contract allows any steps of other calls), is a run.
* **Rate limiter.** `RateLimit` models the fixed-window limiter with its lazy sweep.

Loops, in-place sorts and objects whose methods update their fields are methods and classes proved
against functions; the laws are lemmas about those functions.  `Reals`, `Results` and `Collections`
are shared helpers.

## Findings

Paths are below `backend/internal/`.

* `repository/case_repository.go:69`: `SaveAnalysis` checks the status but not the version, so a worker
  that outlives its lease can complete an epoch that another worker opened
  (`LateSaveCompletesNewerEpoch`).  `SaveByOwnerIff` says exactly when the save is the owner's;
  `TimelySavesAreByOwner` gives the timing that suffices.
* `service/case_service.go:210-217`, `service/case_service.go:232-237`: a Confirm or Close audits the record it read as
  before-value, although its transaction only checks the version in the request.  A client that
  names a version not yet reached gets an older record audited (`UnseenVersionAuditsOlderRecord`);
  `CommitAuditsReplacedIff` is the exact condition.
* `repository/event_repository.go:15-21`: detecting again after a review records the reviewed event
  twice (`ReviewedEventIsRecordedTwice` is such a run).  `RecordedTwiceIff` is the exact condition, and
  `RedetectionRecordsReviewedEventTwice` applies it to every run.
* `service/event_service.go:119-131`: a review that names no distance writes back the one it read and
  so can undo a distance that another reviewer has set meanwhile (`EarlierReadLosesDistance`);
  `ReviewKeepsDistanceIff` is the exact condition.
* `middleware/middleware.go:121-123`: the limiter's clock is read before its lock is taken; readings
  that go back can make the sweep visible (`BackwardClockShowsSweep`).  `SweepUnobservableIff` says
  exactly for which calls it stays invisible however often the latest one is repeated.
* `algorithm/compare.go:77-82`: the primary estimate need be neither a loss increase nor the most
  confident difference of what the comparison returned (`WinnerNeedNotBeLossOrMostConfident`);
  `WinnerIsLossIff` and `WinnerIsMostConfidentIff` are the exact conditions on the list.
* `algorithm/compare.go:32-49`: the repository's README describes matching as one-to-one nearest.  It is
  greedy in baseline order: `ClosestPairMayBeParted` parts the closest pair.  `AllNearestIff` says exactly when
  every event gets the nearest of all, `NearestOfAllIff` when one does.
* `algorithm/detect.go:67-71`: that README describes merging as keeping the strongest of consecutive peaks; a
  survivor can still lie within the window of a stronger peak (`SurvivorBesideStrongerPeak`).
  `DominatesIff` is the exact condition: only an earlier peak can be as strong.
* `algorithm/detect.go:50`: that README says that a peak's step exceeds the threshold; the code, and the
  model, also accept equality.
* `service/case_service.go:196-199`, `service/case_service.go:223-237`: that README says that only
  reviewers and admins confirm.  The service checks the role in `Confirm` and none in `Close`, and the
  model does the same; the router admits only reviewers and admins to both
  (`router/case_audit_router.go:15-16`).

## Model

| member | source | states |
|---|---|---|
| OrderStatistics.SortFloat64s | backend/internal/algorithm/denoise.go:28-29 | the in-place sort leaves the array sorted with the same multiset of samples |
| OrderStatistics.SortedPermutationUnique | backend/internal/algorithm/denoise.go:29 | any two sorted permutations of the samples are equal, so it does not matter how the library sorts |
| OrderStatistics.RankIff | backend/internal/algorithm/denoise.go:28-35 | the k-th smallest sample is at most v exactly when more than k samples are |
| OrderStatistics.MedianIsMiddle | backend/internal/algorithm/denoise.go:29-35 | the median is the middle of the samples, or the mean of the two middle ones, however they are sorted |
| OrderStatistics.MedianMonotone | backend/internal/algorithm/denoise.go:30-35 | raising samples never lowers the median |
| OrderStatistics.MedianShift | backend/internal/algorithm/denoise.go:30-35 | adding a constant to every sample adds exactly it to the median |
| OrderStatistics.MedianRobust | backend/internal/algorithm/denoise.go:30-35 | if more than half of the samples lie in an interval, so does the median |
| OrderStatistics.Interlacing | backend/internal/algorithm/denoise.go:22-27 | the order statistics of a window with one more sample interlace with those without it |
| OrderStatistics.SortedGaps | backend/internal/algorithm/denoise.go:28-29 | in a window whose adjacent samples differ by at most d, so do adjacent order statistics |
| Denoise.MovingMedian | backend/internal/algorithm/denoise.go:8-38 | a result exactly for at least three samples and a window of 1 to 31; each filtered sample is then the middle, or the mean of the two middles, of the samples at most half the odd-bumped window away that exist, however they are sorted |
| Denoise.WindowMedian | backend/internal/algorithm/denoise.go:20-36 | the edge-truncated bucket is copied, sorted and its median taken, without touching the trace |
| Denoise.MedianInPlace | backend/internal/algorithm/denoise.go:29-35 | sorting the bucket in place and taking its middle, or the mean of its two middles, is the median |
| Denoise.FilteringIsMonotone | backend/internal/algorithm/denoise.go:20-35 | pointwise ordered traces have pointwise ordered filtered traces, edges included |
| Denoise.FilteringIsRobust | backend/internal/algorithm/denoise.go:20-35 | a window, truncated or not, with a strict majority in an interval filters into that interval |
| Denoise.FilteringShifts | backend/internal/algorithm/denoise.go:28-35 | adding a constant to the raw trace adds exactly it to every filtered sample |
| Denoise.GrowingWindow | backend/internal/algorithm/denoise.go:21-27 | one more sample at an edge moves the window's median by at most the largest step |
| Denoise.SlidingWindow | backend/internal/algorithm/denoise.go:21-35 | moving a full window by one sample moves its median by at most the largest step |
| Denoise.WindowMediansClose | backend/internal/algorithm/denoise.go:20-36 | neighbouring windows, in the middle and at the edges, have medians at most the largest raw step apart |
| Denoise.LargestStepIff | backend/internal/algorithm/detect.go:48-50 | the largest step is the least bound on the adjacent steps |
| Denoise.DenoisingNeverSharpens | backend/internal/algorithm/denoise.go:18-36 | the largest adjacent step of the filtered trace is at most that of the raw trace |
| Reals.RoundIsNearest | backend/internal/algorithm/detect.go:129 | rounding is to the nearest integer with exact halves away from zero |
| Reals.Round3IsNearest | backend/internal/algorithm/detect.go:129 | the reported figures are whole thousandths, at most half of one away |
| Distance.SampleDistanceIs | backend/internal/algorithm/distance.go:8-23 | a distance exactly for a sample index, interval and refractive index in range; twice the index of refraction times it is the way of light, at 299792458 m/s, in the sampling intervals, up to half a centimetre |
| Distance.DistanceToTheCentimetre | backend/internal/algorithm/distance.go:20-22 | a returned distance is a whole number of centimetres, at most half a centimetre off the exact one |
| Distance.ExactIsLinear | backend/internal/algorithm/distance.go:20-21 | the unrounded distance is the index times one positive step |
| Distance.MetresGrow | backend/internal/algorithm/distance.go:20-22 | later samples never report a shorter distance, and rounding loses at most a centimetre of the gap |
| Detect.EstimateNoiseFloor | backend/internal/algorithm/detect.go:26-38 | a floor exactly for at least sixteen samples: the middle of the samples from four fifths of the trace on, however they are sorted |
| Detect.DerivativePeaks | backend/internal/algorithm/detect.go:40-55 | the peaks of the trace, in index order, or one of the two errors |
| Detect.MergePeaks | backend/internal/algorithm/detect.go:57-77 | the hill-climbing loop yields the merge that the laws below are about |
| Detect.ClassifyPeak | backend/internal/algorithm/detect.go:79-98 | the overriding tests in the source's order give the reported event, whatever the line |
| Detect.Detect | backend/internal/algorithm/detect.go:100-127 | the events and the rejected count of the whole detection, with its errors in order |
| DetectLaws.PeaksAreExactlyTheLargeSteps | backend/internal/algorithm/detect.go:48-53 | a sample is a peak exactly when its step reaches the threshold; peaks come in increasing index order |
| DetectLaws.MergeSubsequence | backend/internal/algorithm/detect.go:64-76 | the survivors are a subsequence of the peaks |
| DetectLaws.MergeGapped | backend/internal/algorithm/detect.go:66-75 | neighbouring survivors are more than the window apart |
| DetectLaws.EveryPeakClimbsToSurvivor | backend/internal/algorithm/detect.go:66-75 | every peak reaches a survivor by hops of at most the window along which the magnitude never falls |
| DetectLaws.DominantPeakSurvives | backend/internal/algorithm/detect.go:67-71 | a peak strictly above those within the window before it and at least those within the window after it survives |
| DetectLaws.FirstMaximumSurvives | backend/internal/algorithm/detect.go:67-71 | the first of the globally largest peaks survives |
| DetectLaws.DominatesIff | backend/internal/algorithm/detect.go:66-75 | a peak is strictly above all within the window before it and at least all within the window after it if and only if it survives and no peak as strong lies within the window before it |
| DetectLaws.SurvivorDominatesIff | backend/internal/algorithm/detect.go:66-75 | a survivor is the strongest within its window exactly when no peak as strong lies within the window before it |
| DetectLaws.SurvivorBesideStrongerPeak | backend/internal/algorithm/detect.go:67-71 | peaks for which that fails: a survivor lies within the window of a stronger, merged one |
| DetectLaws.MergeIdempotent | backend/internal/algorithm/detect.go:57-77 | merging again changes nothing |
| DetectLaws.EventReadsOffStep | backend/internal/algorithm/detect.go:79-98 | each event sits at a step that reaches the threshold; its distance is the half round trip, its type the one interval that the signed step falls into, and loss, reflectance and confidence are those of its two samples, the noise floor and the threshold |
| DetectLaws.EventOnRoute | backend/internal/algorithm/detect.go:119-122 | no event lies beyond the route |
| DetectLaws.DetectionIsTruncation | backend/internal/algorithm/detect.go:113-126 | the events are the merged peaks up to the end of the route, the rejected ones all the others |
| DetectLaws.LongerRouteAppends | backend/internal/algorithm/detect.go:119-124 | a longer route keeps every event unchanged and can only append more |
| DetectLaws.EventsAreSpaced | backend/internal/algorithm/detect.go:109-125 | consecutive events are at least (window + 1) exact sample steps apart, less 0.01 m |
| DetectLaws.DetectedConfidence | backend/internal/algorithm/detect.go:96-97 | every detected confidence is between 0.6 and 0.99 |
| DetectLaws.QuietTraceHasNoEvents | backend/internal/service/event_service.go:56-64 | a raw trace whose largest step is below the threshold has no events and no rejections after filtering and detection |
| DetectLaws.OffsetInvariance | backend/internal/service/event_service.go:56-64 | adding a constant to every raw sample leaves filter-then-detect unchanged in every figure and moves the noise floor by exactly that constant |
| Compare.FindNearest | backend/internal/algorithm/compare.go:33-43 | the inner loop over the used map finds the candidate that the laws call nearest |
| Compare.MatchBaseline | backend/internal/algorithm/compare.go:32-56 | the outer loop yields the greedy matching's used set and the baseline part of the differences |
| Compare.SortSlice | backend/internal/algorithm/compare.go:64-69 | some sorted permutation by distance and kind, no particular one among ties |
| Compare.CompareBaseline | backend/internal/algorithm/compare.go:23-71 | a result exactly for positive tolerance and threshold: a permutation of the differences, each with all its fields those of its event or pair within tolerance, by distance and then disappeared, loss_increased, new |
| Compare.PrimaryDifference | backend/internal/algorithm/compare.go:73-84 | the folding loop yields the estimate that the laws below are about, none for an empty list |
| CompareLaws.EachMatchIsNearestLeft | backend/internal/algorithm/compare.go:33-43 | each match is the nearest candidate within tolerance not taken by an earlier baseline event, ties to the lowest index, and missing only when there is none |
| CompareLaws.FirstChoiceIsNearest | backend/internal/algorithm/compare.go:33-43 | an event's first choice is the nearest of all current events within tolerance, ties to the lowest index, none exactly when there is none |
| CompareLaws.NearestOfAllIff | backend/internal/algorithm/compare.go:32-49 | a baseline event is matched to its first choice exactly when no earlier baseline event has taken that one |
| CompareLaws.AllNearestIff | backend/internal/algorithm/compare.go:32-49 | every baseline event is matched to its first choice if and only if no two of them have the same one |
| CompareLaws.ClosestPairMayBeParted | backend/internal/algorithm/compare.go:32-49 | two baseline events and one current event of which the farther pair is matched |
| CompareLaws.MatchingIsOneToOne | backend/internal/algorithm/compare.go:36-49 | no current event is matched twice |
| CompareLaws.MatchingIsMaximal | backend/internal/algorithm/compare.go:32-49 | no leftover baseline and leftover current event lie within tolerance |
| CompareLaws.LeftoversAreApart | backend/internal/algorithm/compare.go:39-43 | in metres: leftover events within a million kilometres are more than the tolerance apart |
| CompareLaws.GreedyIsHalfOptimal | backend/internal/algorithm/compare.go:32-49 | the matching is at least half as large as any one-to-one pairing within tolerance |
| CompareLaws.DifferenceAccounting | backend/internal/algorithm/compare.go:44-63 | new minus disappeared is the number of current minus baseline events, for every tolerance and every outcome of the sort |
| CompareLaws.EachEventAtMostOnce | backend/internal/algorithm/compare.go:44-63 | with distinct identifiers every event takes part in at most one difference |
| CompareLaws.ReportedIffJustified | backend/internal/algorithm/compare.go:44-63 | a difference, given by its six fields, is reported exactly when it is that of an unmatched event or of a matched pair within tolerance whose loss grew by at least the threshold |
| PrimaryLaws.PrimaryIgnoresUnstableSort | backend/internal/algorithm/compare.go:64-83 | the estimate and its uncertainty are the same for all sorted permutations of the same differences |
| PrimaryLaws.PrimaryIs | backend/internal/algorithm/compare.go:73-84 | no estimate exactly for no differences; otherwise the place of the chosen difference, with uncertainty 20 times what its confidence lacks to one, and 1 from 0.95 on |
| PrimaryLaws.WinnerHasReason | backend/internal/algorithm/compare.go:77-82 | the winner is the first of the most confident loss increases from the first one that holds on, or, when none holds, the first of the most confident differences after the last loss increase |
| PrimaryLaws.ChosenIsUnique | backend/internal/algorithm/compare.go:77-82 | that rule leaves one difference |
| PrimaryLaws.TiesCommute | backend/internal/algorithm/compare.go:65-80 | differences that the sort may put in either order may be folded in either order |
| PrimaryLaws.PrimaryDependsOnOrderInGeneral | backend/internal/algorithm/compare.go:77-82 | two orders of the same differences, not both sorted, with different estimates |
| PrimaryLaws.WinnerStands | backend/internal/algorithm/compare.go:77-82 | the winner is one of the differences and nothing after it would replace it, a necessary condition |
| PrimaryLaws.WinnerIsLossIff | backend/internal/algorithm/compare.go:77-82 | the estimate is that of a loss increase if and only if from some loss increase on every other difference comes after a loss increase, from there, at least as confident |
| PrimaryLaws.WinnerIsMostConfidentIff | backend/internal/algorithm/compare.go:77-82 | the estimate is that of a most confident difference if and only if some most confident one is a loss increase or has no loss increase after it |
| PrimaryLaws.WinnerNeedNotBeLossOrMostConfident | backend/internal/algorithm/compare.go:64-83 | events whose comparison yields a list with a loss increase where the winner is neither one nor the most confident |
| CaseRepository.CaseRepository.Create | backend/internal/repository/case_repository.go:16-21 | the table gains exactly the new row |
| CaseRepository.CaseRepository.Get | backend/internal/repository/case_repository.go:23-32 | the stored row, or not found |
| CaseRepository.CaseRepository.Transition | backend/internal/repository/case_repository.go:53-64 | compare-and-set on version and status, bumping the version; no other row changes |
| CaseRepository.CaseRepository.SaveAnalysis | backend/internal/repository/case_repository.go:66-77 | compare-and-set on the analyzing status only, bumping the version |
| CaseRepository.CaseRepository.RecoverStaleAnalysis | backend/internal/repository/case_repository.go:79-89 | back to draft exactly when analyzing and last updated before the cutoff |
| CaseService.CaseService.CreateCase | backend/internal/service/case_service.go:24-57 | a whole call with anything interleaved is a run of the system; on success the two traces differ and belong to the route, and the draft it returns, given field by field with 25 m and 0.5 dB as fallbacks, is the one stored and audited |
| CaseService.CaseService.InsertCase | backend/internal/service/case_service.go:38-56 | is exactly the protocol's create step with its fallbacks, and returns the inserted row |
| CaseService.CaseService.LoadEvents | backend/internal/service/case_service.go:175-192 | a query's converted result is a listing of the trace's markers as stored, each with its identifier, distance, loss and confidence |
| CaseService.CaseService.RecoverTransaction | backend/internal/service/case_service.go:93-105 | is exactly the recovery step, and reports whether it wrote |
| CaseService.CaseService.StartTransaction | backend/internal/service/case_service.go:119-126 | is exactly the start step, and reports whether it wrote |
| CaseService.CaseService.SaveTransaction | backend/internal/service/case_service.go:145-167 | is exactly the save step: updates without estimate when nothing is found, audit by outcome |
| CaseService.CaseService.CommitTransaction | backend/internal/service/case_service.go:210-217 | is exactly the commit step of a Confirm or Close, and reports whether it wrote |
| CaseService.CaseService.Compare | backend/internal/service/case_service.go:183-193 | the comparison after both queries is exactly the protocol's second load step |
| CaseService.CaseService.Analyze | backend/internal/service/case_service.go:85-172 | a whole call with anything interleaved is a run of the system, its two queries reading the markers stored at that moment; success means that a completion by its actor has been logged meanwhile, with the request's parameters where it names them, else those the case had when the call began, else 25 m and 0.5 dB |
| CaseService.CaseService.Review | backend/internal/service/case_service.go:196-242 | a whole Confirm or Close with anything interleaved is a run of the system; success means a reviewer or admin for a Confirm, that its decision has been logged meanwhile, and that the returned case has left the requested version and carries the request's conclusion, estimate, uncertainty and reviewer, or is closed at the instant the call read |
| CaseWriteLaws.CreateWrites | backend/internal/service/case_service.go:24-53 | the inserted draft and its entry, field by field, exactly when the traces differ and belong |
| CaseWriteLaws.StartWritesRow | backend/internal/service/case_service.go:119-128 | a start succeeds exactly on the draft of the version read; row, entry and local copy field by field |
| CaseWriteLaws.RecoverWritesRow | backend/internal/service/case_service.go:94-105 | a recovery succeeds exactly on an analysis not updated for more than ten minutes; row and entry field by field |
| CaseWriteLaws.FailureWritesRow | backend/internal/service/case_service.go:144-153 | a failed analysis puts an analyzing case back to draft with its error; row and entry field by field |
| CaseWriteLaws.CompletionWritesRow | backend/internal/service/case_service.go:154-167 | a completed analysis stores differences, the parameters it used and the chosen difference's estimate, which it leaves alone when there is none; row and entry field by field |
| CaseWriteLaws.ConfirmWritesRow | backend/internal/service/case_service.go:210-217 | a Confirm succeeds exactly on the pending case of its version and stores conclusion, estimate, uncertainty and reviewer of the request and nothing else; row and entry field by field |
| CaseWriteLaws.CloseWritesRow | backend/internal/service/case_service.go:231-238 | a Close succeeds exactly on the confirmed case of its version and stores the instant read and nothing else; row and entry field by field |
| CaseWriteLaws.ReadDecides | backend/internal/service/case_service.go:85-117 | where a call goes from the row it reads: the status checks of Analyze and the role and status checks of Confirm |
| CaseWriteLaws.AnalysisIs | backend/internal/service/case_service.go:183-193 | an analysis finds differences exactly with events of both traces and positive parameters |
| CaseWriteLaws.OnlyReviewersConfirm | backend/internal/service/case_service.go:196-209 | in every run a Confirm that comes to its transaction is a reviewer's or an admin's |
| CaseWriteLaws.DecisionsStay | backend/internal/repository/case_repository.go:53-64 | from any moment on a confirmed or closed case keeps its decision and result, and a case not yet completed has had its parameters all along |
| CaseWriteLaws.DecidedCasesShowTheirDecision | backend/internal/service/case_service.go:211-216 | in every run a confirmed or closed case carries exactly the conclusion, estimate, uncertainty and reviewer of a logged confirmation |
| CaseWriteLaws.DecidedOnce | backend/internal/constants/case.go:13-19 | a log confirms at most once and closes at most once |
| CaseWriteLaws.StoredParametersWereUsed | backend/internal/service/case_service.go:130-163 | in every run a completed case's parameters are those that the request of an analysis of it named, else those of its creation, else 25 m and 0.5 dB, as logged with its completion |
| CaseLaws.EveryEffectIsLegal | backend/internal/constants/case.go:13-26 | every step keeps the rows, inserts an audited draft, or makes one of six audited writes, each along CanTransition, bumping the version by one and leaving references and results as its action demands |
| CaseLaws.LogDeterminesState | backend/internal/service/case_service.go:47-51 | in every run a case's version is its number of audit entries and folding their actions gives its status |
| CaseLaws.LogObeysTransitions | backend/internal/constants/case.go:13-26 | consecutive statuses of a log obey CanTransition, and nothing follows closed |
| CaseLaws.AnalysesAddUp | backend/internal/service/case_service.go:93-167 | starts equal completions plus failures plus recoveries plus the one now running; a log completes at most once |
| CaseLaws.AnalysesAddUpInEveryRun | backend/internal/service/case_service.go:93-167 | the same of the stored case in every run |
| CaseLaws.ResultsNeverStaleOrTorn | backend/internal/service/case_service.go:156-163 | a draft or running case holds no result; one pending review holds exactly the primary difference of its stored differences |
| CaseLaws.VersionIdentifiesContent | backend/internal/repository/case_repository.go:53-57 | two reads with equal version, at any moments of any run, see equal records; closed cases never change; the log only grows |
| CaseLaws.VersionLeftForGood | backend/internal/repository/case_repository.go:53-69 | a step that writes a case leaves its version for good |
| CaseReviewLaws.CopiesFaithful | backend/internal/service/case_service.go:200-210 | in every run the copy a call holds is the stored row or of a version that the row has left |
| CaseReviewLaws.CommitAuditsReplacedIff | backend/internal/service/case_service.go:210-217 | a successful Confirm or Close changes one case and appends one entry; the before-value is the replaced record if and only if the copy has the requested version |
| CaseReviewLaws.ObservedVersionAuditsReplaced | backend/internal/service/case_service.go:224-237 | with a version the case had reached when the request was sent, the before-value is exactly the replaced record |
| CaseLeaseLaws.EpochsFit | backend/internal/service/case_service.go:119-128 | in every run a running call's epoch is current only if that call owns it, and the row then dates from its start |
| CaseLeaseLaws.SaveByOwnerIff | backend/internal/repository/case_repository.go:66-77 | a successful save is by the owner of the epoch if and only if the row still has the version of that call's start |
| CaseLeaseLaws.TimelySavesAreByOwner | backend/internal/repository/case_repository.go:66-88 | if no call saves more than ten minutes after its start, every successful save is by the call that opened the epoch |
| CaseLeaseLaws.RecoveryRespectsLease | backend/internal/repository/case_repository.go:79-88 | a recovery never takes a case from a call whose lease has not run out |
| CaseWitness.LateSaveCompletesNewerEpoch | backend/internal/repository/case_repository.go:69 | a reachable state where an expired call's save completes the epoch of another running call |
| CaseWitness.UnseenVersionAuditsOlderRecord | backend/internal/service/case_service.go:210-217 | a reachable state where a Confirm succeeds and audits a record older than the one it replaces |
| TraceRepository.TraceRepository.UpdateProcessing | backend/internal/repository/trace_repository.go:55-64 | overwrites the five processing columns of one trace and nothing else, or reports it missing |
| EventRepository.EventRepository.ReplaceForTrace | backend/internal/repository/event_repository.go:14-25 | the trace's unreviewed markers go, all others stay, the new ones follow under fresh identifiers |
| EventRepository.EventRepository.Review | backend/internal/repository/event_repository.go:71-80 | writes the six review columns of one marker, given one by one, and nothing else, or reports it missing |
| EventRepository.EventRepository.ForTrace | backend/internal/repository/event_repository.go:63-69 | lists exactly the trace's markers, once each, by distance, ties in any order |
| EvidenceService.EvidenceService.CheckSamples | backend/internal/service/trace_service.go:29-33 | accepts exactly the samples within the supported range |
| EvidenceService.EvidenceService.BuildTrace | backend/internal/service/trace_service.go:25-70 | the row to insert, or the first failing check |
| EvidenceService.EvidenceService.Import | backend/internal/service/trace_service.go:25-82 | a whole call is a run of the protocol; on success the returned trace is stored and has the request's samples, route and interval, its parameters or 5, 0.8 and 3, the medians of its samples and their noise floor |
| EvidenceService.EvidenceService.Process | backend/internal/service/event_service.go:31-64 | the fallbacks and the pipeline give the processing that the protocol's step computes, or its first error |
| EvidenceService.EvidenceService.ReplaceTransaction | backend/internal/service/event_service.go:68-82 | is exactly the protocol's commit: processing columns and markers together, or nothing when the trace is missing |
| EvidenceService.EvidenceService.Detect | backend/internal/service/event_service.go:19-87 | a whole call is a run of the protocol; on success the trace stores what is returned, computed with the request's parameters, else those of the trace when the call began, else 5, 0.8 and 3, each event read off the filtered samples along a route and lying on it |
| EvidenceService.EvidenceService.Review | backend/internal/service/event_service.go:98-140 | a whole call is a run of the protocol; on success the stored marker shows type, note, reviewer and instant of the review and the distance that the request names, else the one the marker had when the call began |
| EvidenceWriteLaws.ImportIs | backend/internal/service/trace_service.go:25-70 | what an accepted import stores, field by field |
| EvidenceWriteLaws.ImportWrites | backend/internal/service/trace_service.go:71-75 | an import's commit inserts its trace under a free identifier and touches no other trace and no marker; or nothing if the identifier is taken |
| EvidenceWriteLaws.DetectionIs | backend/internal/service/event_service.go:31-64 | what a detection computes from a trace and a route, field by field |
| EvidenceWriteLaws.DetectionWrites | backend/internal/service/event_service.go:68-82 | a detection's commit writes five columns of its trace, deletes exactly the trace's unreviewed markers, and gives every event an unreviewed marker with its figures; or nothing if the trace is missing |
| EvidenceWriteLaws.ReviewWrites | backend/internal/repository/event_repository.go:71-80 | a review's commit writes the six columns of its marker and nothing else; or nothing if the marker has gone |
| EvidenceWriteLaws.ReviewPreparesIff | backend/internal/service/event_service.go:102-124 | a review goes on exactly when trace and route exist and its distance, the named or else the read one, is within the route's length |
| EvidenceLaws.EveryTraceReplays | backend/internal/service/trace_service.go:53-70 | in every run each trace's processed points and noise floor equal the filter rerun on its raw points with the stored window |
| EvidenceLaws.EveryDetectionReproduces | backend/internal/service/event_service.go:35-76 | in every run rerunning the pipeline with the stored parameters gives exactly the events and rejections of the trace's last committed detection |
| EvidenceLaws.MarkersSoundInEveryRun | backend/internal/service/event_service.go:68-82 | in every run unreviewed markers come from the last committed detection with the algorithm's values, every event of it still has its marker with the algorithm's figures, and confidences are detected ones |
| EvidenceLaws.UnreviewedMarkerIsRecomputed | backend/internal/service/event_service.go:35-82 | in every run an unreviewed marker shows an event that rerunning the pipeline on the stored trace yields |
| EvidenceLaws.NothingIsLost | backend/internal/repository/event_repository.go:14-25 | between any two moments of any run raw points stay, reviewed markers stay reviewed, algorithm figures never change, identifiers are not reused |
| EvidenceReviewLaws.OnlyReviewsChangeReviewed | backend/internal/repository/event_repository.go:14-25 | from any moment of any run on a reviewed marker keeps everything, the reviewer's type, distance and note included, until it is reviewed again |
| EvidenceReviewLaws.ReviewKeepsDistanceIff | backend/internal/service/event_service.go:119-131 | a review that names no distance writes the one its read saw, so it keeps the stored one exactly when that is still the same |
| EvidenceReviewLaws.RecordedTwiceIff | backend/internal/repository/event_repository.go:14-25 | a detection leaves an event recorded by another marker besides its new one exactly when a reviewed marker recorded it or the detection found a twin of it |
| EvidenceReviewLaws.RedetectionRecordsReviewedEventTwice | backend/internal/service/event_service.go:68-82 | in every run detecting again with the stored parameters and route finds the last events again; the old marker of each is still beside the new one exactly when it has been reviewed |
| EvidenceWitness.ReviewedEventIsRecordedTwice | backend/internal/repository/event_repository.go:15-21 | a reachable state, after import, detection, review and detection, where a reviewed and an unreviewed marker record the same event |
| EvidenceWitness.EarlierReadLosesDistance | backend/internal/service/event_service.go:119-131 | a reachable state where a review is about to replace a distance set by a later one with the older distance it read |
| DetectionReadiness.ImportAcceptedIff | backend/internal/service/trace_service.go:25-68 | an import passes all checks exactly when size, range, route, window, geometry and five percent coverage are in order |
| DetectionReadiness.StoredTracesAreDetectable | backend/internal/service/event_service.go:19-64 | in every run a detection on a stored trace finds its route and succeeds exactly when the parameters it ends up with are acceptable |
| WholeSystem.RunsProject | backend/internal/service/case_service.go:174-194 | a run over the shared store is a run of each protocol |
| Provenance.DifferencesCompareListings | backend/internal/service/case_service.go:174-193 | in every run the differences of a case pending review, confirmed or closed are a sorted comparison, with the stored parameters, of listings of its two traces as stored at moments of that run |
| Provenance.MarkersInOneDifference | backend/internal/algorithm/compare.go:44-63 | in every run no marker takes part in two stored differences of a case, in whichever role |
| Provenance.MarkersStayOnTrace | backend/internal/repository/event_repository.go:71-72 | between two moments of a run no marker changes its trace |
| WholeSystem.CasesReferToTracesOfTheirRoute | backend/internal/service/case_service.go:25-36 | in every run the two traces of every case exist, differ and belong to its route |
| WholeSystem.ComparedAreConfident | backend/internal/algorithm/compare.go:46-62 | events with confidence in [0.6, 0.99] give only differences with confidence in [0.54, 0.99] |
| WholeSystem.PendingUncertaintyIsBounded | backend/internal/algorithm/compare.go:83 | in every run a case pending review has an estimate exactly when it has differences, with uncertainty between 1 and 9.2 m |
| RateLimit.RateLimiter.Allow | backend/internal/middleware/middleware.go:98-119 | the sweep, decision and new map are those of the functions that the laws are about |
| RateLimit.RateLimiter.Sweep | backend/internal/middleware/middleware.go:102-106 | deletes exactly the expired visitors, in whatever order the map is walked |
| RateLimit.DecideFrame | backend/internal/middleware/middleware.go:109-118 | a call changes only its own key's entry, and a denied call changes nothing, so it never extends a window |
| RateLimit.NoReturnAgrees | backend/internal/middleware/middleware.go:101-115 | while no call reads a time at which its visitor, already swept, would still be live, a sweeping and a never sweeping limiter decide alike, on any readings |
| RateLimit.ReturnShows | backend/internal/middleware/middleware.go:101-115 | after any history a call that does so makes the two differ when it is repeated as often as the limit |
| RateLimit.SweepUnobservableIff | backend/internal/middleware/middleware.go:101-115 | calls cannot tell the two limiters, wherever the client stops to repeat the latest one up to the limit, if and only if none of them does so |
| RateLimit.SweepUnobservable | backend/internal/middleware/middleware.go:101-108 | on non-decreasing clock readings both decide every call alike |
| RateLimit.OnlyRecentVisitorsStay | backend/internal/middleware/middleware.go:101-108 | on non-decreasing readings every remembered visitor's window ended at most one window length before the last call |
| RateLimit.BackwardClockShowsSweep | backend/internal/middleware/middleware.go:101-115 | readings that go back, for which they differ |
| RateLimit.WindowGrantsAtMostLimit | backend/internal/middleware/middleware.go:110-117 | the sweeping limiter grants at most the limit in a window that a call opens |
| RateLimit.FewerThanTwiceTheLimit | backend/internal/middleware/middleware.go:98-119 | any closed interval of one window length grants a key at most twice the limit minus one |
| RateLimit.IntervalBoundIsReached | backend/internal/middleware/middleware.go:98-119 | for every limit and window some calls reach that bound |

## Left out

- Floating point: samples, distances and confidences are exact reals, so rounding error, NaN and infinities are not modelled; `math.Round` and `math.MaxFloat64` are.
- Time: instants and durations are integers (seconds for the lease), and all workers share one clock that never goes back; only the rate limiter's readings may.
- Integer width: identifiers, versions and counts are unbounded.
- Database: a transaction is one atomic step including its audit entry; a failing query, a failing audit insert and a crashed worker are the loss of a call between two steps.
- Identifiers of new cases and traces are arguments, since the database assigns them; a taken one is rejected.
- HTTP handlers, routing, JWT, password hashing, configuration, access log, CORS, request identifiers and request binding: wiring around the modelled services.
- List queries and pagination, the audit search, the route service (routes appear only as rows that may be added or edited within their check constraints) and the frontend.
- Columns that no decision reads: wavelength, pulse width, capture time, uploader, route code and name.
- Audit entries of imports, detections and reviews, whose order plays no part in what is proved; the case audit log is modelled in full except for the "worker_expired" and closing-time details of its after-values.
- JSON encoding and `scrubSnapshot`: stored columns are the values themselves.
- `MovingAverage` and `DistanceUncertainty`: called by no service.
- The Retry-After duration, which reads the real clock rather than the argument.
- Error texts with numbers in them are shortened; which error is reported, and in which order, is kept.
- Event types of a review are always valid values here, so the check that rejects unknown strings is not modelled.
- CaseService.CaseService.Analyze: whether one of the two event queries fails, and how, is an argument.
- RateLimit.RateLimiter.Allow: the mutex makes a call atomic, so concurrency is the order of the calls.
