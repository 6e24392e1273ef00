# Shedpilot: a verified model

Shedpilot is a controller that protects services in a mesh. It scrapes cumulative
request counters from the pods of an AdaptivePolicy, debounces breaches, evaluates
ordered triggers with cooldowns, switches the policy's active profile, keeps a set of
mesh resources in step with the policy, and pushes runtime values to connected proxies
over RTDS. This project models those five cores and proves what they keep over whole
runs.

Each file is one module. Where the source updates state step by step, the model is a
class or a method with loops, proved against a specification function; the properties
are lemmas about that function.

| files | core |
|---|---|
| `Evaluator`, `EvaluatorLaws`, `EvaluatorHistory`, `EvaluatorEdits` | trigger evaluation: in the policy's own fields, and what its counters mean over runs, without and with edits of the triggers |
| `Poller`, `Mailbox` | the debounce automaton, the breach gate and the channel of capacity 1 |
| `Text`, `Exposition`, `RoundTrip`, `ScrapeBodies`, `SuccessCodes` | parsing one scrape, from printed samples back to counters; success by status class |
| `Scraper`, `ScraperSignals`, `ScraperRuns`, `SharedScraper` | per-pod deltas, the reported numbers, fleet aggregation, conservation over runs; several policies, and pods of one name, on one scraper |
| `RtdsProtocol`, `RtdsDelivery`, `RtdsSerial`, `RtdsOverlap`, `RtdsSchedule` | the RTDS server as a transition system |
| `RtdsServer` | the RTDS server as an object; its locked regions are those of the transition system |
| `Bodies`, `Resources`, `RenderedSettings` | what the rendered resources are called and say, profile overrides, what a runtime push changes |
| `Bookkeeping`, `BookkeepingRuns`, `BookkeepingBodies`, `BookkeepingFailures` | apply, prune and record; what the applied resources say; what failed calls leave behind |
| `Registry`, `Restarts` | running pollers; what their restarts do to the debounce |
| `Conditions` | status conditions |
| `AutoSwitch`, `AutoSwitchRuns`, `AutoSwitchRetries` | validation, automatic switches, decision history, when a switch is tried again |
| `Api`, `Options` | the parts of the resource that the code reads |

Numbers are exact: `float64` is `real`, times are integers of nanoseconds, and the
trigger counters are 32-bit integers that are proved never to wrap. What is outside the
modelled code is an input: clock readings, scrape results, pod lists, the float parser,
the mesh that was detected, and whether each call to the API server or to a stream
succeeds. An input that is not restricted by a `requires` may be anything, so a failure
can happen at any of these calls.

## What the code does, where that differs from what its text says

- `internal/trigger/evaluator.go:59-61` says that all trigger counters are updated on every call.
  A firing returns at once, so the later ones are not, and a call without samples updates
  none: `FiringLeavesLaterCounterStale`; `AllCountersUpdateIff` gives the exact condition.
- `internal/signal/poller.go:222-223` says that a breach is a success rate below the lowest
  threshold of all triggers. The code compares with the largest one:
  `BreachIsBelowLargestBound`, `RateBetweenThresholdsBreaches`. The two agree exactly when
  the triggers do not have different thresholds: `BreachIsBelowLowestIffBoundsAgree`.
- `internal/rtds/client.go:209` says that reconnecting pods get correct values. A proxy that
  reconnects before its old stream is deregistered is dropped by that deregistration
  (`QuickReconnectIsLost`); open streams stay registered exactly if no held node id is taken
  (`OpenStreamsStayRegisteredIffIdsAreFresh`). Overlapping pushes of one layer can leave a
  stream with the older values under the same version (`OvertakenPushLeavesStaleView`).
  Streams end up current exactly if no push starts while a response of its layer with other
  values is in flight: `StreamsRecoverIffPushesAreHarmless`.
- The RTDS layer name leaves out the namespace, so two policies of one name in two
  namespaces write the same layer: `LayersIgnoreNamespaces`.
- A `key="` search can match inside an earlier label's name or value:
  `LabelIsFoundIffNotShadowed` is exact, and `ShadowedLabelIsLost` gives a family of
  lines that lose their code.
- Success is judged by one representative code per class, so success ranges that split a
  class are miscounted: `ClassCountingIsExactIffAligned`.
- An idle fleet reports a success rate of 0.99 with no samples. The evaluator ignores that, but the
  poller does not look at the samples, so with a Below bound over 0.99 idle polls confirm a
  breach: `IdleRunBreachesIff`.
- The snapshots are overwritten before the interval is computed, so a call that scraped
  every pod divides by 30 s: `FullyScrapedCallDividesBy30`. `DivisorIsIntendedIff` says
  exactly which calls divide by the age of the snapshots that they compare with.
- One scraper serves the reconciles of all policies, and a call forgets every pod that
  its own policy does not list. While the calls of two policies with different pods
  alternate, both only ever get the safe defaults, which no trigger acts on:
  `AlternatingCallsReportDefaults`; `StoredIffListedSince` says exactly what survives.
- `api/v1alpha1/adaptivepolicy_types.go:848-849` says that `status.managedResources` lists all
  resources the policy created. A partial apply, a failed deletion or a failed status
  patch breaks that: `FailuresLeaveOrphans` gives a run for each,
  `NoOrphansIffAllPassesSafe` the exact condition, and `EscapedResourceStays` shows that such
  a resource is never cleaned up.
- Snapshots are stored by pod name without the namespace (`internal/signal/scraper.go:127`), and
  policies of all namespaces share them, so pods of one name are counted against each
  other: two idle pods can report 400 failed requests (`NamesakesCountTheirDifference`).
  `DeltaIsOwnIff` says exactly which deltas are a pod's own, and
  `ReportedAtMostServedAndForeign` what is left of the bound by the requests served.
- A restart that the request total has already outgrown counts more successes than requests, and
  the rate is capped: `UnnoticedRestartIsCapped`; `ClampIsIdleIff` is exact.
- `internal/controller/adaptivepolicy_controller.go:265-266` says that a failed RTDS push falls
  back to what step 6 has already applied. The pass that switches applies nothing. After it a
  resource says what the policy asks for exactly if the two profiles agree on the settings
  that its renderer reads (`SwitchedBodyIsCurrentIffSettingsAgree`): the stats flush, skip paths and
  streaming resources read none, and the filters wait for the next pass that applies
  (`SwitchIsAppliedOnePassLate`; `SwitchLeavesOldThreshold` is such a run). On Cilium, which has
  no RTDS path, that is all there is.
- Nor does a push that succeeds make up for it. It carries no window and no percentile, and its
  threshold is a fraction, which `internal/renderer/istio.go:269` says matches the filter; the
  filter has it in percent (line 230). `PushedAdmissionIsCurrentIff` and
  `PushedConcurrencyIsCurrentIff` say exactly when the filter under the pushed layer is the one
  that the next pass applies.
- `internal/controller/adaptivepolicy_controller.go:243-248` says that the resource of a disabled
  filter is deleted. When it was the policy's only filter, the validation stops every later
  reconcile before that, and the resource stays (`LastFilterStays`;
  `CleanPassMatchesIffWellConfigured` is exact).
- The poller is restarted on every change of the policy's generation, not only when
  `spec.detection` changes (`internal/controller/adaptivepolicy_controller.go:605`). An
  automatic switch is such a change, so it discards the debounce counts
  (`Registry.Pollers.EnsurePoller`). No recovery is ever emitted exactly if after every confirmed
  breach the poller is replaced before enough clean scrapes: `NeverRecoversIffReplacedInTime`.
  A policy that is deleted and created again unseen gets the old policy's poller
  (`ReusedGenerationGetsOldPoller`).
- `Degraded`, once stored, is never cleared by later successful reconciles:
  `DegradedIsNeverCleared`.
- A decision whose profile patch failed is still recorded as a switch
  (`FailedPatchIsRecorded`, `RecordsAreSwitchesIffWritesAgree`), and it restarts the trigger's
  count and cooldown. `FailedPatchPaysAgain` says exactly when the next reconcile tries it again,
  and by `RetriesArePaid` no later one does before both are paid.

## Model

| member | source | states |
|---|---|---|
| `Evaluator.ConditionMet` | internal/trigger/evaluator.go:144-213 | a condition is met exactly if it sets at least one bound and every bound it sets holds, strictly |
| `Evaluator.EvaluateOne` | internal/trigger/evaluator.go:79-130 | one loop iteration, with any names: whether the trigger is skipped, its count after the sample, whether it fires, and the whole new memory |
| `Evaluator.Evaluate` | internal/trigger/evaluator.go:62-139 | the decision and the whole new memory are those of the scan of the triggers in order, also when names are repeated |
| `Evaluator.EvaluatedRefines` | internal/trigger/evaluator.go:62-139 | for distinct names the scan decides and remembers what the specification says, which is decided from the state before the call: the least due trigger fires |
| `Evaluator.ScanSwitches` | internal/trigger/evaluator.go:79-116 | a switch is always to the target of a trigger whose condition holds and whose source profiles allow the active one, never to the active profile, and it restarts that trigger's count and cooldown |
| `Evaluator.ScanKeepsOthers` | internal/trigger/evaluator.go:79-130 | entries of names that no trigger has are left alone |
| `EvaluatorLaws.OneBoundIsStrict` | internal/trigger/evaluator.go:144-213 | a condition with one bound holds exactly if its own signal lies strictly on that side of it, for each of the five bounds |
| `EvaluatorLaws.HoldsIffAllPartsHold` | internal/trigger/evaluator.go:144-213 | a condition holds exactly if it has a bound and each of its bounds holds alone |
| `EvaluatorLaws.OutcomeInRun` | internal/trigger/evaluator.go:62-130 | in every run, on the fields: a trigger is not reached exactly without samples or after a firing, skipped exactly by its source profiles, its target or less than its cooldown in seconds, and fires exactly at the n-th met evaluation of its trailing run, where n is its consecutiveSamples of the success rate if positive, else of the latency, else 1 |
| `EvaluatorLaws.FiringNeedsItsSamples` | internal/trigger/evaluator.go:95-105 | when a trigger fires, its condition holds, and since it was last unmet or fired it had been met n - 1 times, with n from the fields |
| `EvaluatorLaws.DecisionInRun` | internal/trigger/evaluator.go:103-138 | in every run the decision is the target, name and sample number of the trigger that fires, else the first met trigger with its number, else nothing |
| `EvaluatorLaws.SecondSampleFires` | api/v1alpha1/adaptivepolicy_types.go:944-950 | the API's own example with two consecutive samples: the first failing sample is counted, the second fires |
| `EvaluatorHistory.StateIsHistory` | internal/trigger/evaluator.go:79-130 | over every run, a stored count is the number of met evaluations since the last unmet one or firing, and the fire time is that of the last firing, as a machine that only keeps the log computes them |
| `EvaluatorHistory.CountsStayBelowRequired` | internal/trigger/evaluator.go:95-107 | a stored count is never negative and always below the required samples |
| `EvaluatorHistory.SwitchesIffSomeTriggerIsDue` | internal/trigger/evaluator.go:79-138 | a call with samples switches if and only if some trigger is due |
| `EvaluatorHistory.AllCountersUpdateIff` | internal/trigger/evaluator.go:59-130 | a call updates every counter if and only if there are no triggers, or it has samples, every trigger may be evaluated, and none but the last is due |
| `EvaluatorHistory.FiringLeavesLaterCounterStale` | internal/trigger/evaluator.go:103-116 | two triggers whose conditions hold: the first fires and the second one's counter stays |
| `EvaluatorHistory.DueCompletesRun` | internal/trigger/evaluator.go:95-105 | a due trigger's trailing run is exactly one short of its required samples |
| `EvaluatorHistory.TheLeastDueTriggerFires` | internal/trigger/evaluator.go:79-116 | the least due trigger fires with its target and count, its counter restarts, and all later triggers keep their state |
| `EvaluatorHistory.FiringsRespectCooldown` | internal/trigger/evaluator.go:88-106 | successive firings of one trigger are at least its cooldown apart |
| `EvaluatorHistory.FiringCompletesRun` | internal/trigger/evaluator.go:95-107 | whenever a trigger fired, the run before that call had length required minus one |
| `EvaluatorHistory.FiringsNeedTheirSamples` | internal/trigger/evaluator.go:95-107 | between two firings of a trigger lie at least required minus one met evaluations of it |
| `EvaluatorHistory.TriggerFiringsAreBounded` | internal/trigger/evaluator.go:88-106 | a window holds at most window / cooldown + 1 firings of one trigger |
| `EvaluatorHistory.SwitchRateIsBounded` | internal/trigger/evaluator.go:79-116 | over any run the switches in any window number at most the sum over the triggers of window / cooldown + 1 |
| `EvaluatorEdits.EditedFiringsRespectCooldown` | internal/controller/adaptivepolicy_controller.go:147-156 | through all edits of the triggers, repeated names included, a firing comes at least its cooldown after the previous firing of its name |
| `EvaluatorEdits.MemoryIsHistory` | internal/trigger/evaluator.go:62-139 | without edits and with distinct names, the memory after any run of calls is what the log-keeping machine says |
| `Poller.PollerConfig.WithDefaults` | internal/signal/poller.go:86-100 | the interval is kept from 100 ms to 10 s and is 500 ms otherwise, and the two counts are kept from 1 to 20 and are 3 and 4 otherwise |
| `Poller.IsBreaching` | internal/signal/poller.go:225-241 | the scan returns whether some trigger has a positive Below bound above the rate |
| `Poller.BreachIsBelowLargestBound` | internal/signal/poller.go:218-241 | the gate opens exactly below the largest Below bound of any trigger |
| `Poller.BreachIsBelowLowestIffBoundsAgree` | internal/signal/poller.go:218-241 | a breach means a rate below the lowest threshold, for all rates, if and only if the triggers do not have different thresholds |
| `Poller.RateBetweenThresholdsBreaches` | internal/signal/poller.go:218-241 | with thresholds 0.90 and 0.95 a rate of 0.92 breaches though it is above the lowest |
| `Poller.HoldingConditionBreaches` | internal/signal/poller.go:218-241 | whenever the evaluator's condition of a trigger with a Below bound holds, the poller counts a breach |
| `Poller.Poller.constructor` | internal/signal/poller.go:143-150 | a new poller has no counts and an empty channel; each configuration field in range is kept and every other one gets its default |
| `Poller.Poller.SendNonBlocking` | internal/signal/poller.go:246-260 | without a concurrent receiver the fresh value is what the channel holds |
| `Poller.Poller.Tick` | internal/signal/poller.go:185-216 | one poll is one step of the automaton; it sends exactly on an emission, and a failed scrape changes nothing |
| `Poller.CountersAreTrailing` | internal/signal/poller.go:185-206 | over every run the counters are the lengths of the trailing breaching and clean streaks of successful scrapes |
| `Poller.DebounceRefinesHistory` | internal/signal/poller.go:193-215 | a breach is emitted exactly when the poller is not firing and the last B successful scrapes all breach, a recovery exactly in the dual case with R |
| `Poller.EmissionsAlternate` | internal/signal/poller.go:207-215 | emissions strictly alternate, starting with a breach |
| `Poller.EmissionsNeedScrapes` | internal/signal/poller.go:193-215 | k emissions need at least ceil(k/2) B + floor(k/2) R successful scrapes |
| `Poller.RecoversIffClearedAfterConfirmed` | internal/signal/poller.go:185-216 | a run emits a recovery if and only if at some point its last B successful scrapes all breached and at a later one its last R were all clean |
| `Mailbox.DeliveredInOrder` | internal/signal/poller.go:246-260 | in every interleaving with a receiver, the received values and the buffered one form an in-order subsequence of the emitted ones |
| `Mailbox.LatestValueWins` | internal/signal/poller.go:243-260 | whenever no send is in progress, the last delivered value is the last emitted one |
| `Mailbox.FreshValueIsNeverDropped` | internal/signal/poller.go:255-258 | the last default branch is unreachable: the fresh value is never dropped |
| `Exposition.AddLine` | internal/signal/scraper.go:229-262 | one line adds exactly its own contribution to the counters |
| `Exposition.ParseMetrics` | internal/signal/scraper.go:224-264 | the counters are the sum of the contributions of the body's lines; what a line contributes is `ScrapeBodies.LineIsItsSample` |
| `Exposition.ParseIsHomomorphic` | internal/signal/scraper.go:224-264 | parsing two bodies joined by a newline gives the field-wise sum |
| `Exposition.LineOrderIsIrrelevant` | internal/signal/scraper.go:224-264 | only the multiset of lines matters |
| `Exposition.TotalIsClassSum` | internal/signal/scraper.go:244-262 | the total is always the sum of the four classes |
| `RoundTrip.LabelIsFoundIffNotShadowed` | internal/signal/scraper.go:266-280 | the search for a printed label finds that label, and returns its value, exactly when no earlier name ends with its name and no earlier value ends with its name and an equals sign |
| `RoundTrip.ShadowedLabelIsLost` | internal/signal/scraper.go:266-280 | after a value that ends in `key=` the label `key` is misread whatever its value |
| `RoundTrip.SampleRoundTrip` | internal/signal/scraper.go:300-331 | a printed line with labels reads back its metric name and the number its value denotes, with or without a timestamp |
| `RoundTrip.BareSampleRoundTrip` | internal/signal/scraper.go:300-331 | a printed line without labels reads back its metric name and value |
| `RoundTrip.NothingToRead` | internal/signal/scraper.go:300-331 | a line has no value if its labels are not closed, if nothing follows them, or if it has neither labels nor a space |
| `Text.TrimIsExact` | internal/signal/scraper.go:317-330 | trimming removes white space at both ends, and all of it |
| `ScrapeBodies.LineIsItsSample` | internal/signal/scraper.go:229-262 | a printed sample counts its own value, as ejected requests if its metric starts with that of admission control, as requests of its code's class if it is a labelled request sample, and as nothing else |
| `ScrapeBodies.CountersAreSampleSums` | internal/signal/scraper.go:224-264 | each counter read from a printed scrape is the sum of the values of its samples of that kind, ejected requests and classes 2xx to 5xx, and the total is the sum of the classes |
| `ScrapeBodies.CommentsCountNothing` | internal/signal/scraper.go:229-231 | comments and blank lines count as nothing |
| `SuccessCodes.AlignedClassesAreExact` | internal/signal/scraper.go:144-157 | with ranges that contain each class wholly or not at all, success by class equals success by response code |
| `SuccessCodes.MisalignedCodeIsMiscounted` | internal/signal/scraper.go:356-367 | a request whose code and class representative disagree is miscounted |
| `SuccessCodes.ClassCountingIsExactIffAligned` | internal/signal/scraper.go:356-367 | success by class is exact on every scrape with numeric codes if and only if the ranges are aligned with the classes |
| `SuccessCodes.DefaultIsAligned` | internal/signal/scraper.go:107-107 | the default ranges contain exactly the codes 100 to 399, and are aligned |
| `SuccessCodes.WideningRaisesSuccess` | internal/signal/scraper.go:151-156 | wider ranges never count fewer successes, and never more than the total |
| `Scraper.Scraper.ScrapePod` | internal/signal/scraper.go:116-163 | a successful scrape replaces exactly the pod's snapshot and yields its contribution against the old one; a failed one changes nothing |
| `Scraper.Scraper.Prune` | internal/signal/scraper.go:165-174 | exactly the snapshots of listed pods remain |
| `Scraper.Scraper.OldestPreviousTimestamp` | internal/signal/scraper.go:344-354 | the oldest stored timestamp of the listed pods, at most the ceiling |
| `Scraper.Scraper.ScrapePods` | internal/signal/scraper.go:116-163 | the loop's totals, contributors and snapshots are those of the specification |
| `Scraper.Scraper.Summarise` | internal/signal/scraper.go:176-200 | the reported signals are those that the totals and the oldest snapshot determine |
| `Scraper.Scraper.ReadSignals` | internal/signal/scraper.go:88-201 | the whole call: errors without pods, the reported signals, and the snapshots left behind |
| `ScraperSignals.IdleReport` | internal/signal/scraper.go:176-178 | without contributors or with less than one request the report is a rate of 0.99 and no samples |
| `ScraperSignals.LiveReport` | internal/signal/scraper.go:180-200 | otherwise the two rates times the seconds are the totals, the seconds being 30 for an interval under one, the samples are the whole requests, and the success rate is that of the totals, or 1 if successes exceed requests |
| `ScraperSignals.TotalsAreGrowth` | internal/signal/scraper.go:117-163 | the totals are the growth of requests, of successes by class and of ejected requests, over the running pods with an address whose stored snapshot is at least 0.1 s old and whose total has not gone back |
| `ScraperSignals.DefaultSuccess` | internal/signal/scraper.go:107-157 | under the default ranges the successes are the growth of classes 2xx and 3xx |
| `ScraperSignals.IdleBreachesIff` | internal/signal/poller.go:225-241 | the poller counts an idle call as a breach if and only if some trigger's Below bound exceeds 0.99 |
| `ScraperSignals.IdleRunBreachesIff` | internal/signal/poller.go:185-241 | a run of idle calls and failed scrapes emits a breach if and only if some Below bound exceeds 0.99 and at least B scrapes succeeded |
| `ScraperRuns.CallIsPerPod` | internal/signal/scraper.go:116-174 | a call advances every pod's snapshot independently of all other pods |
| `ScraperRuns.ContributionIsPerPod` | internal/signal/scraper.go:116-163 | what a call counts for a pod depends on that pod's own snapshots only |
| `ScraperRuns.CountsAreConserved` | internal/signal/scraper.go:116-142 | over any run, resets included, the counted requests and the dropped increments together are the counter's gain plus what its resets took away; without a reset that is nothing |
| `ScraperRuns.CountedAtMostGained` | internal/signal/scraper.go:116-142 | the counted requests never exceed that gain, and equal it when no gap was short and the pod was never pruned in between |
| `ScraperRuns.CountedAtMostServed` | internal/signal/scraper.go:139-142 | whatever restarts reset the counter, seen or unseen, no more requests are counted than the pod served |
| `ScraperRuns.RunIsPerPod` | internal/signal/scraper.go:116-174 | over any run of calls the stored snapshot of a pod is the one its own observations determine |
| `ScraperRuns.ReportedIsCounted` | internal/signal/scraper.go:116-163 | over any run the fleet totals contain for each pod exactly what its own observations count |
| `ScraperRuns.ReportedRequestsAreConserved` | internal/signal/scraper.go:116-174 | conservation for the totals of any run of calls, resets included |
| `ScraperRuns.ReportedAtMostServed` | internal/signal/scraper.go:116-174 | over any run of calls no more requests are reported for a pod than it served |
| `ScraperRuns.SuccessWithinRequests` | internal/signal/scraper.go:137-157 | with monotone classes and totals that are class sums, a pod's successes lie between 0 and its requests |
| `ScraperRuns.FleetRateIsWeightedMean` | internal/signal/scraper.go:159-188 | for contributions with successes within requests, the rate of the sum lies between 0 and 1 and between the smallest and largest rate |
| `ScraperRuns.ReportedRateIsExact` | internal/signal/scraper.go:185-188 | with healthy counters the clamp is idle: the reported rate is total successes over total requests |
| `ScraperRuns.ClampIsIdleIff` | internal/signal/scraper.go:137-186 | the reported rate is the uncapped quotient if and only if all classes of all pods together fell by at most what the failing classes grew by |
| `ScraperRuns.UnnoticedRestartIsCapped` | internal/signal/scraper.go:137-160 | a restart after which the total has passed its old value: 150 successes are counted in 50 requests |
| `ScraperRuns.ReportedRateIsBetweenPodRates` | internal/signal/scraper.go:159-188 | with healthy counters the reported rate of a call lies between the rates of two of its pods with traffic |
| `ScraperRuns.WideningNeverLowersTheRate` | internal/signal/scraper.go:151-188 | widening the success ranges never lowers the reported rate |
| `ScraperRuns.FallbackIffSnapshotsAreFresh` | internal/signal/scraper.go:180-183 | the divisor is the fallback exactly when all stored snapshots of listed pods are less than a second older than the call |
| `ScraperRuns.FullyScrapedCallDividesBy30` | internal/signal/scraper.go:114-183 | a call that scraped every listed pod divides by 30 s |
| `ScraperRuns.DivisorIsIntendedIff` | internal/signal/scraper.go:114-183 | the divisor is the age of the snapshots compared with, or its fallback, if and only if that age is under a second, or is just the fallback with no older snapshot left, or a pod that was not scraped holds the oldest snapshot |
| `SharedScraper.StoredIffListedSince` | internal/signal/scraper.go:127-174 | after any run of calls of any policies a pod's snapshot is stored if and only if since its last scrape every call that found pods listed it |
| `SharedScraper.AlternatingCallsReportDefaults` | internal/signal/scraper.go:165-178 | when calls of policies with different pods alternate on one scraper, every call reports the safe defaults, and on these no trigger fires and no count changes |
| `SharedScraper.StoredIsOfTheOwner` | internal/signal/scraper.go:127-128 | in every run of calls for any namespaces, what is stored under a pod name is the own pod's snapshot if the last scrape of the name was for its namespace, and otherwise nothing of it is left |
| `SharedScraper.DeltaIsOwnIff` | internal/signal/scraper.go:127-160 | a pod's delta is that against its own snapshot if and only if it counts nothing, or the last scrape of that name was for the same namespace |
| `SharedScraper.ReportedIsOwnAndForeign` | internal/signal/scraper.go:127-163 | over any run, the requests reported for a pod are those counted from its own snapshots plus those counted from namesakes' |
| `SharedScraper.ReportedAtMostServedAndForeign` | internal/signal/scraper.go:127-163 | no more is reported for a pod than it served, restarts included, plus what was counted from namesakes' snapshots |
| `SharedScraper.NamesakesCountTheirDifference` | internal/signal/scraper.go:127-201 | two pods of one name in two namespaces, each scraped once: 400 requests and no success are reported |
| `RtdsProtocol.CoreInvHolds` | internal/rtds/client.go:203-268 | in every interleaving the locked state is the fold of the updates, the version counts them, and every registered stream is in the set of every update since its registration |
| `RtdsProtocol.LatestIsCurrent` | internal/rtds/client.go:263-263 | a layer's current values are those of its latest update |
| `RtdsProtocol.NoLostUpdate` | internal/rtds/client.go:203-268 | no update is lost: it captured the registered stream, or the stream's snapshot holds its value or a later one |
| `RtdsDelivery.LinksHold` | internal/rtds/client.go:218-343 | in every interleaving each capturing update and each snapshot layer is still to be sent, lost, or received, and every received message is one of these |
| `RtdsDelivery.QuietStreamHasEveryCurrentValue` | internal/rtds/client.go:203-306 | once nothing is in flight, a registered stream that lost no send has received the current values of every layer |
| `RtdsDelivery.NothingIsReceivedTwice` | internal/rtds/client.go:218-343 | no stream receives one push or one replayed layer twice |
| `RtdsDelivery.FailedReplayStops` | internal/rtds/client.go:329-343 | after a failed send of a replay the connection never receives a replayed layer again, in any continuation |
| `RtdsDelivery.OrderedViewIsCurrent` | internal/rtds/client.go:203-306 | a quiet stream that received the updates in order holds exactly the current values |
| `RtdsSerial.SerialInvHolds` | internal/rtds/client.go:181-352 | when connects and pushes complete one at a time, every stream receives in order and every push is stamped with its own number |
| `RtdsSerial.SerialisedViewIsCurrent` | internal/rtds/client.go:209-305 | then every registered stream without a lost send holds exactly the current values, so a late joiner agrees with an early one |
| `RtdsSerial.SerialisedVersionsCountPushes` | internal/rtds/client.go:267-352 | then every response carries the number of pushes made so far |
| `RtdsOverlap.OpenStreamsStayRegisteredIffIdsAreFresh` | internal/rtds/client.go:203-237 | open connections are always registered if and only if no connection takes a node id that an open one holds |
| `RtdsOverlap.QuickReconnectIsLost` | internal/rtds/client.go:235-237 | a reconnect that precedes the deregistration of the old stream stays open and gets no push |
| `RtdsOverlap.ViewIsCurrentIffNotOvertaken` | internal/rtds/client.go:260-306 | in any interleaving a quiet stream without a lost send is current if and only if, among the responses it received, in no layer the newest was followed by an older one with other values |
| `RtdsOverlap.OvertakenPushLeavesStaleView` | internal/rtds/client.go:268-352 | two overlapping pushes of one layer can leave a healthy stream with the older values, both under one version |
| `RtdsSchedule.StreamsRecoverIffPushesAreHarmless` | internal/rtds/client.go:260-306 | throughout a run all registered streams without a lost send end up current, however the sends in flight are ordered, if and only if no push starts while a response of its layer with other values is in flight to such a stream |
| `RtdsSchedule.RecoversIffFresh` | internal/rtds/client.go:209-343 | in any reachable state a registered stream ends up current in every continuation by sends if and only if, for every layer, what is in flight to it carries the current values, and if nothing is, it has them |
| `RtdsSchedule.HarmlessRunsAreCurrent` | internal/rtds/client.go:260-306 | a run whose pushes are harmless leaves every quiet registered stream without a lost send current; pushes of different layers may overlap |
| `RtdsSchedule.HarmfulPushCanLeaveStaleStream` | internal/rtds/client.go:268-304 | from any reachable state a push that overlaps a response of its layer with other values has a continuation that leaves that stream quiet, without a lost send, and not current |
| `RtdsSchedule.SerialisedIsHarmless` | internal/rtds/client.go:181-306 | connects and pushes that complete one at a time are harmless |
| `RtdsServer.Broadcast` | internal/rtds/client.go:280-304 | every captured stream gets exactly the one response, unless it is closed, or its send failed and is reported |
| `RtdsServer.Server.CurrentSnapshot` | internal/rtds/client.go:316-326 | the copy equals the current values |
| `RtdsServer.Server.BuildResponse` | internal/rtds/client.go:346-376 | the response carries the layer, all its values and the server's version |
| `RtdsServer.Server.Register` | internal/rtds/client.go:202-211 | the locked region of a connect is that step of the transition system, and the snapshot is the current values |
| `RtdsServer.Server.Replay` | internal/rtds/client.go:329-343 | the inbox is a part of one replay, each layer at most once with its values and the version, and complete unless a send failed, which ends it |
| `RtdsServer.Server.Connect` | internal/rtds/client.go:202-218 | the new stream is registered and replayed, and every registered stream without a lost send stays up to date |
| `RtdsServer.Server.Disconnect` | internal/rtds/client.go:234-237 | exactly this node id is deregistered |
| `RtdsServer.Server.BeginPush` | internal/rtds/client.go:261-268 | the locked region of a push is that step of the transition system, and captures exactly the registered streams |
| `RtdsServer.Server.PushLayer` | internal/rtds/client.go:260-306 | every registered live stream gets exactly one new response with the values and the new version, or is reported; streams without a lost send stay up to date |
| `Bodies.OverridesWin` | api/v1alpha1/adaptivepolicy_types.go:1022-1082 | each setting that the active profile overrides takes effect whatever the baseline is, and a profile without overrides changes nothing |
| `Bodies.PushedAdmissionIsCurrentIff` | internal/renderer/istio.go:212-271 | under a pushed layer the admission filter is the one that the next apply makes it if and only if the profiles agree on the window and the threshold is 0, and those two are all that can differ |
| `Bodies.PushedConcurrencyIsCurrentIff` | internal/renderer/istio.go:276-350 | under a pushed layer the concurrency filter is the one that the next apply makes it if and only if the profiles agree on the percentile |
| `Resources.KeysAreInjective` | internal/controller/adaptivepolicy_controller.go:540-548 | for all policy names, equal pruning keys mean the same policy name and the same role |
| `Resources.RefsAreInjective` | internal/renderer/istio.go:545-563 | references identify the policy and the role |
| `Resources.RenderIstio` | internal/renderer/istio.go:92-180 | the references are exactly those of the wanted roles, each once and in rendering order, each with the body of its role, and the runtime layers those of the enabled filters |
| `Resources.RenderCilium` | internal/renderer/cilium.go:58-105 | one CiliumEnvoyConfig, with the body of its role, exactly if a filter is enabled, and the runtime layers of the enabled filters |
| `Resources.LayersIgnoreNamespaces` | internal/renderer/istio.go:113-132 | two policies share a runtime layer exactly if they have the same name and the filter is the same, whatever their namespaces |
| `RenderedSettings.FiltersGetTheirSettings` | api/v1alpha1/adaptivepolicy_types.go:1022-1082 | each setting of the two filters, on Istio and Cilium, is the active profile's override, else the baseline's value, else 95.0, 1.5, 30s and P50, and all others are those of the policy |
| `RenderedSettings.IstioShowsTheFields` | internal/renderer/istio.go:92-180 | which of the five resources exist, by kind and full name, and what each of them says, on the policy's fields |
| `RenderedSettings.CiliumShowsTheFields` | internal/renderer/cilium.go:58-105 | the one config's name and what it says, with the threshold as a fraction, and that there is no other resource |
| `RenderedSettings.LayersShowTheFields` | internal/renderer/istio.go:113-132 | the runtime layers by name, on the policy's fields |
| `RenderedSettings.KeyIsKindAndName` | internal/controller/adaptivepolicy_controller.go:540-548 | pruning compares kind and name, and nothing else |
| `Bookkeeping.Apply` | internal/controller/adaptivepolicy_controller.go:226-240 | a prefix of the resources is applied, each with its own rendered body; all of them unless a call failed |
| `Bookkeeping.PruneOrphanedResources` | internal/controller/adaptivepolicy_controller.go:533-563 | exactly the managed resources whose key is not rendered are deleted, except those whose deletion failed |
| `Bookkeeping.Reconcile` | internal/controller/adaptivepolicy_controller.go:124-286 | the resources, their bodies and the recorded list after a pass are those of the specification, and without failed calls the pass halts before it touches anything if the policy is not well configured, and otherwise is complete and recorded |
| `BookkeepingRuns.PassTracksIffSafe` | internal/controller/adaptivepolicy_controller.go:226-286 | a pass keeps every resource of the policy listed exactly if what it applied before a failure was listed, no failed deletion hit an existing resource, and an unsaved status hides nothing new |
| `BookkeepingRuns.RecordedPassIsExact` | internal/controller/adaptivepolicy_controller.go:226-286 | after a recorded pass the policy's resources are exactly the rendered ones (those that existed, if the pass switched) if and only if none had escaped before |
| `BookkeepingRuns.PassLeavesOthersAlone` | internal/controller/adaptivepolicy_controller.go:533-563 | a pass neither applies nor deletes a resource that is not named for its policy |
| `BookkeepingRuns.ManagedIsOwned` | internal/controller/adaptivepolicy_controller.go:286-286 | in every run, whatever fails, the recorded list holds only the policy's own names |
| `BookkeepingRuns.PoliciesAreIsolated` | internal/controller/adaptivepolicy_controller.go:533-563 | in every run over many policies, an event of one policy changes no resource and no record of another |
| `BookkeepingRuns.ForeignResourcesAreUntouched` | internal/controller/adaptivepolicy_controller.go:533-563 | resources that are named for no policy are never applied or deleted |
| `BookkeepingRuns.EventTracksIffSafe` | internal/controller/adaptivepolicy_controller.go:226-286 | one event of a run keeps all policies' resources listed exactly if it is safe |
| `BookkeepingRuns.NoOrphansIffAllPassesSafe` | internal/controller/adaptivepolicy_controller.go:226-286 | a run never has an unlisted resource if and only if every pass in it is safe |
| `BookkeepingRuns.CompletedPassLeavesExactlyTheRendered` | internal/controller/adaptivepolicy_controller.go:226-286 | while API calls succeed, a full pass leaves exactly the resources that the filters and the mesh call for, after any edits, mesh changes, switches and outside deletions |
| `BookkeepingRuns.CleanPassMatchesIffWellConfigured` | internal/controller/adaptivepolicy_controller.go:124-286 | without failed calls, a reconcile that does not switch leaves exactly the wanted resources if and only if the policy is well configured or they matched already |
| `BookkeepingRuns.SwitchInSettledPolicyKeepsResources` | internal/controller/adaptivepolicy_controller.go:226-249 | an automatic switch in a settled policy neither adds nor removes a resource: the set of rendered references does not depend on the active profile |
| `BookkeepingRuns.EscapedResourceStays` | internal/controller/adaptivepolicy_controller.go:550-554 | an unlisted resource survives all later passes until it is rendered again, removed from outside, or the policy is deleted |
| `BookkeepingRuns.FailedDeletionEscapes` | internal/controller/adaptivepolicy_controller.go:555-558 | in any run, a failed deletion in a recorded pass makes the resource unlisted |
| `BookkeepingFailures.PartialApplyEscapes` | internal/controller/adaptivepolicy_controller.go:228-239 | a run whose second apply fails, after which the first resource is unlisted |
| `BookkeepingFailures.FailedStatusPatchEscapes` | internal/controller/adaptivepolicy_controller.go:391-393 | a run whose status patch fails, after which its resource is unlisted |
| `BookkeepingFailures.FailedDeletionRunEscapes` | internal/controller/adaptivepolicy_controller.go:555-558 | a run in which a filter is replaced and the deletion fails, after which the old resource is unlisted |
| `BookkeepingFailures.FailuresLeaveOrphans` | internal/controller/adaptivepolicy_controller.go:226-286 | all three start without any resource and end with one that no status lists |
| `BookkeepingFailures.LastFilterStays` | internal/controller/adaptivepolicy_controller.go:241-249 | a run without failures in which the only filter is disabled, after which its resource is still there |
| `BookkeepingBodies.BodyIsLastApplied` | internal/controller/adaptivepolicy_controller.go:226-240 | in every run, whatever fails, a resource says what the last pass that applied it rendered for its role |
| `BookkeepingBodies.SwitchChangesBodyIff` | api/v1alpha1/adaptivepolicy_types.go:1022-1082 | a switch changes what a resource should say if and only if the profiles' effective settings for its role differ; stats flush, skip paths and streaming have none |
| `BookkeepingBodies.BodyIsCurrentIff` | internal/controller/adaptivepolicy_controller.go:226-240 | after a full pass an existing resource says what the policy asks for if and only if the pass did not switch, or the resource said so before |
| `BookkeepingBodies.SwitchedBodyIsCurrentIffSettingsAgree` | internal/controller/adaptivepolicy_controller.go:226-267 | in any run, after a pass that switches, a resource says what the policy asks for if and only if the two profiles agree on the effective settings of its role |
| `BookkeepingBodies.SwitchIsAppliedOnePassLate` | internal/controller/adaptivepolicy_controller.go:226-267 | when they do not agree, the resource is wrong after the switch and right after the next full pass that does not switch |
| `BookkeepingBodies.SwitchLeavesOldThreshold` | internal/controller/adaptivepolicy_controller.go:226-267 | a run without failures, after whose switch the filter has the baseline's threshold and the policy asks for the profile's |
| `Registry.Pollers.Cancel` | internal/controller/adaptivepolicy_controller.go:609-611 | exactly the goroutines of this key are cancelled |
| `Registry.Pollers.StartPoller` | internal/controller/adaptivepolicy_controller.go:608-620 | the key's old goroutine is cancelled, a new one for this generation is registered, and it is the only one of the key that runs |
| `Registry.Pollers.EnsurePoller` | internal/controller/adaptivepolicy_controller.go:596-621 | the returned poller is registered, runs and has the caller's generation; it is the old one exactly if that had this generation, and otherwise a new one without debounce counts |
| `Registry.Pollers.DeletePoller` | internal/controller/adaptivepolicy_controller.go:107-114 | the key is removed from both maps and its goroutine cancelled; all others run on |
| `Registry.CurrentHasLatestGeneration` | internal/controller/adaptivepolicy_controller.go:596-621 | after any sequence of calls the registered poller is that of the latest call's generation, kept exactly if the call before asked for the same one |
| `Registry.PollersServeTheirCallersIffGenerationsIdentifySettings` | internal/controller/adaptivepolicy_controller.go:604-608 | every call gets a poller built from its own triggers, detection settings and selector if and only if, between deletions, a repeated generation comes with the same ones |
| `Registry.ReusedGenerationGetsOldPoller` | internal/controller/adaptivepolicy_controller.go:604-608 | a policy deleted and created again unseen gets the old policy's poller |
| `Restarts.NeverRecoversIffReplacedInTime` | internal/controller/adaptivepolicy_controller.go:604-620 | over any sequence of calls and polls, a policy's pollers never emit a recovery if and only if after every confirmed breach the poller is replaced before R clean scrapes in a row, or these never come; each poller has the settings of the call that started it |
| `Conditions.ConditionList.SetCondition` | internal/controller/adaptivepolicy_controller.go:690-705 | the condition of this type is updated where it stands or appended, and keeps its time exactly if its status stays |
| `Conditions.ConditionList.MarkDegraded` | internal/controller/adaptivepolicy_controller.go:448-469 | stores Degraded as true and Ready as false, each with its own clock reading, or nothing if the status patch fails |
| `Conditions.UpsertFinds` | internal/controller/adaptivepolicy_controller.go:690-705 | one call keeps types unique, replaces the condition of its type and leaves every other one as it was |
| `Conditions.ConditionsReflectTheirCalls` | internal/controller/adaptivepolicy_controller.go:690-705 | after any run of calls each type has one condition, with what the last call about it said and the time of the first call of the trailing run of equal statuses |
| `Conditions.DegradedIsNeverCleared` | internal/controller/adaptivepolicy_controller.go:320-326 | after any run of reconciles, saved or not, Ready follows the last saved one, while Degraded is set, and true, if and only if a stopped reconcile ever saved it |
| `Conditions.ConditionsFollowReconciles` | internal/controller/adaptivepolicy_controller.go:320-388 | after any run of reconciles, saved or not, each of the four conditions has the status, reason, message and generation of the last saved reconcile that reports about it |
| `AutoSwitch.ValidatePolicy` | internal/controller/adaptivepolicy_controller.go:626-674 | accepts exactly the policies that have a filter and define every profile they name, and otherwise reports the first violation |
| `AutoSwitch.Policy.EvaluateAndSwitch` | internal/controller/adaptivepolicy_controller.go:409-445 | under a human override or without triggers nothing is evaluated and no memory changes; otherwise decision and memory are those of the evaluation, and the active profile becomes the target exactly if a trigger fired and the patch succeeded |
| `AutoSwitch.Policy.RecordDecision` | internal/controller/adaptivepolicy_controller.go:303-318 | the record becomes lastDecision and the first of at most ten in the history |
| `AutoSwitch.Policy.Reconcile` | internal/controller/adaptivepolicy_controller.go:124-318 | validation, decision, switch and record together are the specified step, and the evaluator's memory is that of the evaluation, or unchanged |
| `AutoSwitch.SwitchTargetIsDefined` | internal/controller/adaptivepolicy_controller.go:421-444 | a decided switch goes to a defined profile other than the active one, named by a trigger of that name |
| `AutoSwitch.DecidedIsStored` | internal/controller/adaptivepolicy_controller.go:298-317 | a deciding reconcile stores its trigger's name, the profiles before and after and the way of delivery, and makes the target active exactly if the profile patch succeeded; the trigger's condition holds and its source profiles allow the switch |
| `AutoSwitch.ReconcileKeepsWellConfigured` | internal/controller/adaptivepolicy_controller.go:427-444 | a reconcile changes nothing in the spec but the active profile, keeps validity in both directions, and leaves an invalid policy alone |
| `AutoSwitch.FailedPatchPaysAgain` | internal/controller/adaptivepolicy_controller.go:421-441 | a failed profile patch leaves the policy as it was, and the next reconcile tries the same trigger if and only if it has samples, one is enough, the condition holds, the cooldown is over and no earlier trigger is due |
| `AutoSwitchRetries.DecidesIffFired` | internal/controller/adaptivepolicy_controller.go:409-445 | over the reconciles of an unedited policy, whatever patches fail, a reconcile decides by a trigger exactly if the log of the evaluations has it fire |
| `AutoSwitchRetries.RetriesArePaid` | internal/controller/adaptivepolicy_controller.go:421-441 | two decisions by one trigger, whether or not the patch of the first succeeded, are at least its cooldown apart, with its required samples met since |
| `AutoSwitchRuns.HistoryIsNewestTen` | internal/controller/adaptivepolicy_controller.go:311-317 | in every run the history holds the newest min(10, n) recorded decisions, newest first, headed by lastDecision |
| `AutoSwitchRuns.EvaluatedUnlessFrozen` | internal/controller/adaptivepolicy_controller.go:124-128 | triggers are evaluated exactly if there is no human override, there are triggers, a filter is enabled and all named profiles are defined; otherwise memory and decision are empty of change |
| `AutoSwitchRuns.FrozenStaysAsWritten` | internal/controller/adaptivepolicy_controller.go:409-419 | while a policy is overridden, without triggers or not valid, through any edits, its spec is what its authors last wrote and no decision is recorded |
| `AutoSwitchRuns.RunsStayWellConfigured` | internal/controller/adaptivepolicy_controller.go:626-674 | in a run with valid edits the policy is always valid |
| `AutoSwitchRuns.RecordsAreSwitchesIffWritesAgree` | internal/controller/adaptivepolicy_controller.go:298-393 | the status always shows exactly the newest switches that changed the stored profile if, and on a clock that moves on only if, in every deciding reconcile both writes succeed or both fail |
| `AutoSwitchRuns.FailedPatchIsRecorded` | internal/controller/adaptivepolicy_controller.go:298-318 | one reconcile whose profile patch fails: the status tells of a switch, and none was made |
| `AutoSwitchRuns.ActiveProfileIsLastTargetIff` | internal/controller/adaptivepolicy_controller.go:303-317 | lastDecision always leads to the active profile if and only if, once a decision is recorded, the profile changes only by recorded switches |
| `AutoSwitchRuns.RecordsChain` | internal/controller/adaptivepolicy_controller.go:303-317 | then each record starts from the profile that the one before led to, and leads to another one |

## Left out

- Evaluator.Evaluate: reason strings are not modelled, and thresholds are numbers rather than strings (an empty string is no bound).
- Exposition.ParseMetrics: the float parser is a parameter that rejects NaN and infinities; the 4 MiB limit on a body is not modelled, and white space is that of ASCII.
- Scraper.Scraper.ReadSignals: pod discovery and HTTP are inputs; `float64` rounding and the conversion of the sample count are exact.
- EvaluatorHistory.StateIsHistory: speaks of one list of triggers; what holds through edits and for repeated names is `EvaluatorEdits.EditedFiringsRespectCooldown`.
- ScraperRuns.ReportedAtMostServed: takes a pod name for one pod; with pods of one name in several namespaces, `SharedScraper.ReportedAtMostServedAndForeign` is what holds.
- ScraperRuns.ReportedRequestsAreConserved: counts what enters the fleet totals; a call whose total is below one request reports defaults instead of them.
- RtdsServer.Server.PushLayer: calls complete one at a time here, and the concurrent sends of a push go to different streams; interleavings are the subject of `RtdsProtocol`. The version has no upper bound, and the packing of a response, its nonce and its type URL are not modelled.
- RtdsServer.Server.Replay: a failed replay is only logged by the source; the model's stream remembers that it lost a response.
- Resources.RenderIstio: a body is the settings that its renderer reads, with the selector for the host that it is chosen by and the settings of adaptive concurrency that no profile overrides as text; their nesting in Envoy, Istio and Cilium configuration maps is not modelled. Streaming protection has no counterpart on Cilium, as in the source.
- Bodies.PushedAdmissionIsCurrentIff: that Envoy takes the pushed runtime value for the default in the filter is taken from the runtime keys; Envoy is not part of this model.
- Bookkeeping.Reconcile: a read of the policy returns the latest saved status; a stale cache is not modelled.
- BookkeepingRuns.CompletedPassLeavesExactlyTheRendered: resources with a policy's names are assumed to come from the controller only.
- Registry.Pollers.EnsurePoller: the scraper that all pollers share is the subject of `SharedScraper`. The source's poller holds a pointer to the policy object of the call that started it, which that reconcile fills again after a switch, so until it is replaced it may compare with the triggers as fetched then; the model's has those of the call.
- Conditions.ConditionsFollowReconciles: the two fixed messages of SignalCollectionAvailable are left empty.
- Conditions.DegradedIsNeverCleared: messages are opaque, and when the filter condition is set is an input.
- gRPC transport, keepalive, ACK and NACK reading, the bootstrap patch, `Client.Push` and the layer registry: library plumbing and pass-through.
- HTTP scraping, pod listing, mesh detection, manager startup, flags and RBAC: I/O and configuration.
- The counter of inactive filter intervals, the shed rate text, schedules, outcomes and scalability warnings: either shallow or evaluated by no code.
- The fallback of the reconciler to a direct scrape when the channel is empty: it feeds the evaluator undebounced signals, so nothing here says that every switch was debounced.
