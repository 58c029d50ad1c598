# Verified model of the household API's gateway, period handling, releases and analytics

This Dafny project models the parts of the PolicyEngine household API whose correctness is hard to
see from any one function, and proves what they guarantee.

- **Circuit breaker** (`circuit_registry.dfy`, `circuit_history.dfy`, `request_routing.dfy`,
  `request_evidence.dfy`, `request_safety.dfy`, `outage_runs.dfy`, `overlapping_requests.dfy`). The
  failover gateway keeps, per release channel, a trimmed log of Modal attempts, an open flag, a
  recovery streak and timers. The registry object's methods are proved to perform one value-level
  step each. The first layer proves safety for every interleaving of those locked calls with a
  nondecreasing clock; the second treats whole requests as sequential steps and shows that a run of
  requests is one such interleaving that respects more. A third lets the registry accesses of
  several requests interleave.
- **Executor permits** (`executor_permits.dfy`). The bounded pools behind every Modal call, as a state
  machine over acquire, submit, callback, start, finish, timeout and cancel.
- **Period keys** (`period_keys.dfy`, `period_budgets.dfy`, `period_warnings.dfy`,
  `period_pipeline.dfy`, `period_answers.dfy`). The budget validator, the in-place expansion of year
  keys on a live dictionary, and the partial-month warning detector, and the facts on which they
  agree. Numbers are exact reals. A month has two spellings: `Month` is "2025-03", `ShortMonth` is
  "2025-3".
- **Release manifest** (`release_manifest.dfy`, `release_history.dfy`, `rollout_history.dfy`,
  `app_names.dfy`, `version_routers.dfy`). Releases, cleanup lists and prunes as steps of a history;
  the names apps get; and the two gateways that route by the manifest.
- **Analytics** (`analytics_persistence.dfy`, `variable_usage.dfy`). Recording an event under
  repeated, concurrent and crashing deliveries; and the value-free group-by over a household payload.
- **Migration ancestry** (`migration_ancestry.dfy`) and **layered configuration**
  (`config_layers.dfy`).

Clocks, backend outcomes, worker URLs, timestamps and converted environment values are parameters.
`dafny verify dfyconfig.toml` checks the project.

Four findings, each with the condition under which the promise holds:

- The broadcaster looks only at the two-digit spelling of a month. An override spelled "2025-3" on a
  boolean or text variable is kept, and the month gets a second entry under its two-digit spelling,
  holding the year's value, exactly when that spelling had no value of its own
  (`BroadcastMissesShortSpelling`). The comment on the function says explicit monthly values win.
- The minimum open time of a circuit is a promise about recovery rounds that do not share a probe. In
  overlapping requests `should_probe` and `record_probe_attempt` are separate accesses, and for every
  streak length above one such requests close a circuit early (`OverlappingRoundsCutDwell`). Over all
  interleavings the promise holds when every recovery success has a spaced probe of its own, noted
  after the minimum open time (`OwnProbesServeDwell`).
- Application names drop case and punctuation, and "-us" inside a version can be read as the start of
  the US version. A name determines both versions, up to case and punctuation, exactly when no run of
  either version after its first starts with "us" and goes on (`NameDeterminesExactly`). Plain dotted
  versions always have names of their own, which is what deferred cleanup relies on.
- An environment override below the path of an earlier one makes loading fail with a type error, and
  nothing else does (`LoadsExactly`); the other order silently replaces the longer path.

## Model

| member | source | states |
|---|---|---|
| CircuitHistories.WindowRefinesFullLog | projects/cloud-run-failover-api/policyengine_household_failover/cloud_run_gateway.py:191-216 | Under every interleaving of registry calls, the trimmed attempt list is exactly the part of the untrimmed log since the last recovery that lies within the window of the latest attempt |
| CircuitHistories.WindowIsSuffix | projects/cloud-run-failover-api/policyengine_household_failover/cloud_run_gateway.py:281-292 | The stored list is a final part of the untrimmed log since the last recovery, cut exactly at the window of the latest attempt |
| CircuitHistories.VerdictIsWholeLogTest | projects/cloud-run-failover-api/policyengine_household_failover/cloud_run_gateway.py:203-216 | The answer of a recorded failure is the policy's count-and-rate test over that whole untrimmed log, and no on an open circuit |
| CircuitHistories.VerdictCountsWholeLog | projects/cloud-run-failover-api/policyengine_household_failover/cloud_run_gateway.py:203-216 | By counting positions of the untrimmed log: the failed attempts within the window are at least the minimum number and at least the failure rate times all attempts within it |
| CircuitHistories.EvidenceCounts | projects/cloud-run-failover-api/policyengine_household_failover/cloud_run_gateway.py:270-279 | The test behind every opening, by counting positions and multiplying out the rate |
| CircuitHistories.StreakCountsRecoveries | projects/cloud-run-failover-api/policyengine_household_failover/cloud_run_gateway.py:191-256 | The stored streak is the number of recovery successes since the last resetting call, modulo K, and stays in 0..K-1 |
| CircuitHistories.ClosesExactlyOnCompletedStreak | projects/cloud-run-failover-api/policyengine_household_failover/cloud_run_gateway.py:237-252 | An open circuit closes on an event if and only if that event completes K uninterrupted recovery successes of its channel |
| CircuitHistories.OpenUntilKthSuccess | projects/cloud-run-failover-api/policyengine_household_failover/cloud_run_gateway.py:218-252 | After an opening with no resetting call, the circuit is open exactly until the K-th recovery success, whatever is interleaved |
| CircuitHistories.Replay | projects/cloud-run-failover-api/policyengine_household_failover/cloud_run_gateway.py:157-256 | Any sequence of locked calls on a new registry object leaves both channels in the state the histories talk about |
| CircuitRegistries.ChannelCircuit.TrimAttempts | projects/cloud-run-failover-api/policyengine_household_failover/cloud_run_gateway.py:281-292 | The loop keeps exactly the attempts at or after the cutoff, in order |
| CircuitRegistries.ChannelCircuit.ReachesThreshold | projects/cloud-run-failover-api/policyengine_household_failover/cloud_run_gateway.py:270-279 | True exactly when the failed positions number at least the minimum and at least the failure rate times the number of attempts |
| CircuitRegistries.CircuitRegistry.RecordSuccess | projects/cloud-run-failover-api/policyengine_household_failover/cloud_run_gateway.py:191-201 | In place, on one channel only: append a success, trim, reset the streak |
| CircuitRegistries.CircuitRegistry.RecordFailure | projects/cloud-run-failover-api/policyengine_household_failover/cloud_run_gateway.py:203-216 | In place: append a failure, reset the streak, trim; answers whether the channel is closed and the failed attempts left are enough by number and by rate |
| CircuitRegistries.CircuitRegistry.RecordRecoverySuccess | projects/cloud-run-failover-api/policyengine_household_failover/cloud_run_gateway.py:237-252 | In place: extend the streak, or close and restart the log on the K-th success; answers which |
| RequestRouting.RouteToBackend | projects/cloud-run-failover-api/policyengine_household_failover/cloud_run_gateway.py:671-779 | The routing function on the registry object leaves the channel and picks the backend that the value-level request step gives, forced backends included |
| RequestRouting.RefreshModalCircuit | projects/cloud-run-failover-api/policyengine_household_failover/cloud_run_gateway.py:782-837 | The refresh of a closed or open circuit on the registry object follows the value-level step |
| RequestRouting.RefreshOpenModalCircuit | projects/cloud-run-failover-api/policyengine_household_failover/cloud_run_gateway.py:840-877 | One recovery round: canary first, then the worker probe; saturation skips the round without resetting the streak |
| RequestRouting.RunIsTrace | projects/cloud-run-failover-api/policyengine_household_failover/cloud_run_gateway.py:671-877 | Every sequential run of requests is one timed interleaving of locked calls, and keeps openings, closings, probes and status checks apart |
| RequestSafety.AnswerMatchesReportedState | projects/cloud-run-failover-api/policyengine_household_failover/cloud_run_gateway.py:509-514 | For an unforced request: cloud_run is answered exactly when the reported state is unhealthy and the fallback works, modal exactly when it is healthy and the call succeeded |
| RequestEvidence.RunIsServed | projects/cloud-run-failover-api/policyengine_household_failover/cloud_run_gateway.py:671-779 | Any requests that do not overlap are served one after the other, each from the circuit the earlier calls lead to, with the registry calls of the routing step |
| RequestEvidence.EveryOpeningIsJustified | projects/cloud-run-failover-api/policyengine_household_failover/cloud_run_gateway.py:745-779 | Every opening of a sequential run, first or later, is made by an unforced request right after a failure that the same request recorded, at a position where that failure met the policy on everything logged since the last recovery, and after a canary of that request ran and failed; only a status check may lie between |
| RequestEvidence.ConfirmedFailureOpens | projects/cloud-run-failover-api/policyengine_household_failover/cloud_run_gateway.py:745-779 | Conversely, when a request records a failed operation on a closed circuit that meets the policy on everything logged since the last recovery, and its canary failed, the same request opens the circuit |
| RequestEvidence.AttemptsAreGenuine | projects/cloud-run-failover-api/policyengine_household_failover/cloud_run_gateway.py:733-753 | At any moment of a run, the attempts a channel remembers are, one for one and in order, probes and Modal calls that one request each performed and that ended as recorded; saturated operations account for none |
| RequestEvidence.RecordsAreOperations | projects/cloud-run-failover-api/policyengine_household_failover/cloud_run_gateway.py:702-837 | Among its registry calls, a request records an attempt exactly where it performed a probe or a Modal call that did not saturate |
| RequestSafety.DwellIsServed | projects/cloud-run-failover-api/policyengine_household_failover/cloud_run_gateway.py:840-877 | In every sequential run, an opening is followed by no closing and no other opening of the channel for min_open_seconds + 15 (K - 1) seconds |
| OutageRuns.DwellBoundIsMet | projects/cloud-run-failover-api/policyengine_household_failover/cloud_run_gateway.py:218-252 | The dwell bound cannot be raised: for every policy with a reachable failure rate and a positive minimum open time, some sequential run opens a circuit and closes it exactly that much later |
| RequestSafety.ProbesAndChecksAreSpaced | projects/cloud-run-failover-api/policyengine_household_failover/cloud_run_gateway.py:180-189 | In every sequential run, probes of a channel are 15 seconds apart and status-page checks 60 |
| OverlappingRequests.OverlappingRoundsCutDwell | projects/cloud-run-failover-api/policyengine_household_failover/cloud_run_gateway.py:180-189 | Whenever more than one recovery success is required, there is a genuine outage after which that many overlapping requests, which all pass both checks before one notes its probe, close the circuit when the minimum open time ends, before the bound |
| OverlappingRequests.OwnProbesServeDwell | projects/cloud-run-failover-api/policyengine_household_failover/cloud_run_gateway.py:180-252 | Over every interleaving of locked calls in which each recovery success on an open circuit has a properly spaced probe of its own, noted after the minimum open time, no circuit closes before the dwell bound |
| OverlappingRequests.AloneIsRoute | projects/cloud-run-failover-api/policyengine_household_failover/cloud_run_gateway.py:671-877 | A request that makes its registry accesses one at a time, with none of another request between, does what the routing step says |
| OverlappingRequests.OverlapIsTrace | projects/cloud-run-failover-api/policyengine_household_failover/cloud_run_gateway.py:671-877 | However the registry accesses of several requests on a channel interleave, their updates are an interleaving of locked calls that leads to the circuit they see |
| RequestSafety.RecoversOnKthEligibleRound | projects/cloud-run-failover-api/policyengine_household_failover/cloud_run_gateway.py:850-871 | When probes and canaries succeed, an open channel stays open exactly until the eligible round that completes its streak |
| RequestSafety.RecoveryRoundExactly | projects/cloud-run-failover-api/policyengine_household_failover/cloud_run_gateway.py:840-877 | One recovery round by its outcomes: when it runs, and that two successes extend the streak or close, a failure of canary or probe starts the streak over, and saturation leaves it |
| RequestSafety.StatusCheckedExactly | projects/cloud-run-failover-api/policyengine_household_failover/cloud_run_gateway.py:937-952 | After a failure that reaches the threshold the status page is checked exactly when the last check is 60 seconds ago; below the threshold never |
| ExecutorPermits.PermitsAreConserved | projects/cloud-run-failover-api/policyengine_household_failover/cloud_run_gateway.py:1036-1057 | In every reachable state: free permits + calls in submission + unfinished operations + ended operations whose callback is still to run = N |
| ExecutorPermits.PermitOutlivesCaller | projects/cloud-run-failover-api/policyengine_household_failover/cloud_run_gateway.py:1046-1053 | A permit is given back at most once, only after its operation ended or was never submitted; a timed-out operation keeps it |
| ExecutorPermits.PermitKeptWhileRunning | projects/cloud-run-failover-api/policyengine_household_failover/cloud_run_gateway.py:1042-1053 | Over histories: once an operation was running, it counts as ended and its permit is given back only after a later step in which its worker finishes; until then one permit is unavailable |
| ExecutorPermits.CancelledNeverRuns | projects/cloud-run-failover-api/policyengine_household_failover/cloud_run_gateway.py:1050-1053 | An operation still queued when its caller times out never runs |
| ExecutorPermits.HowOperationsEnd | projects/cloud-run-failover-api/policyengine_household_failover/cloud_run_gateway.py:1042-1053 | Every ended operation was finished by its worker while running, or cancelled by its caller's timeout while queued |
| ExecutorPermits.SaturationMeansAllHeld | projects/cloud-run-failover-api/policyengine_household_failover/cloud_run_gateway.py:1036-1046 | A call is turned away exactly when all N permits are held, and the semaphore never exceeds its bound |
| ExecutorPermits.CapacityReturns | projects/cloud-run-failover-api/policyengine_household_failover/cloud_run_gateway.py:1042-1051 | Once all operations ended and all callbacks ran, all N permits are free |
| PeriodKeys.PeriodDict.ExplicitMonths | libs/household-api/policyengine_household_api/country.py:421-428 | The loop collects the numeric months of one year under both spellings, later keys winning |
| PeriodKeys.PeriodDict.DistributeNumericYearValue | libs/household-api/policyengine_household_api/country.py:406-448 | In place: the year key goes, blank padded months get the even share, everything else and the explicit months of other years stay |
| PeriodKeys.PeriodDict.BroadcastYearValue | libs/household-api/policyengine_household_api/country.py:451-461 | In place: the year key goes and blank padded months get the year's value |
| PeriodKeys.PeriodDict.ExpandYearKeysInPlace | libs/household-api/policyengine_household_api/country.py:390-403 | In place, over all years of the map: every key ends up with the entry the outcome function gives from the original map alone |
| PeriodBudgets.AnnualTotalIsConserved | libs/household-api/policyengine_household_api/country.py:406-448 | After expansion the twelve months of a numeric year sum exactly to the annual value if and only if the validator finds the year consistent |
| PeriodBudgets.UnsetMonthsShareAlike | libs/household-api/policyengine_household_api/country.py:421-448 | Explicit months of a numeric year keep their number, and all other months get the same one |
| PeriodBudgets.MonthsAfterExpansion | libs/household-api/policyengine_household_api/country.py:437-448 | After expansion each month of a numeric year holds its explicit number or the even share of the remainder |
| PeriodBudgets.CheckYearBudget | libs/household-api/policyengine_household_api/country.py:322-353 | Succeeds exactly when every fully explicit numeric year sums to its annual value; otherwise reports an inconsistent year with its sum |
| PeriodBudgets.BudgetCheckIsExact | libs/household-api/policyengine_household_api/country.py:296-353 | A numeric year passes if and only if some amounts for the months without a number make the twelve months add up to the annual value |
| PeriodBudgets.ExpansionIsFramed | libs/household-api/policyengine_household_api/country.py:356-403 | No non-null year key survives, null year keys survive, no non-null entry is overwritten, other years and other keys are untouched |
| PeriodBudgets.ExpansionIgnoresOrder | libs/household-api/policyengine_household_api/country.py:390-428 | With one number per month the outcome does not depend on the dictionary's key order |
| PeriodBudgets.ExpansionIsIdempotent | libs/household-api/policyengine_household_api/country.py:390-403 | Expanding an expanded map changes nothing |
| PeriodBudgets.BroadcastMissesShortSpelling | libs/household-api/policyengine_household_api/country.py:451-461 | A month overridden under its one-digit spelling gets a second entry with the year's value exactly when its two-digit key had no value |
| PeriodBudgets.BroadcastFills | libs/household-api/policyengine_household_api/country.py:451-461 | Every month of a broadcast year without a value under its two-digit spelling gets the year's value there, the year's other month entries stay, and the year key goes |
| PeriodWarnings.WalkDistinct | libs/household-api/policyengine_household_api/country.py:90-116 | The household walk visits every slot under an identity of its own |
| PeriodWarnings.WalkExactly | libs/household-api/policyengine_household_api/country.py:90-116 | The walk visits a slot if and only if some group other than the axes has an entity with a period map of a known variable for it |
| PeriodWarnings.DetectPeriodWarnings | libs/household-api/policyengine_household_api/country.py:187-272 | One warning for each hazard of the household and no other, with the months in ascending order |
| PeriodWarnings.DetectorAgreesWithNormaliser | libs/household-api/policyengine_household_api/country.py:187-272 | A slot and year is a hazard of the raw household exactly when after normalisation 1 to 11 months hold a value while an annual figure is asked for, with those months |
| PeriodWarnings.NormalizePeriodKeys | libs/household-api/policyengine_household_api/country.py:356-387 | A copy of the household in which the period map of every month-defined variable is expanded and everything else, axes and unknown variables included, is as it was |
| PeriodWarnings.NormalisedSlots | libs/household-api/policyengine_household_api/country.py:356-387 | Walking the normalised household visits the same slots in the same order, with the expanded maps |
| PeriodPipeline.ValidatePeriodBudgets | libs/household-api/policyengine_household_api/country.py:296-319 | Accepts exactly the households whose numeric month-defined slots are all consistent; a refusal names a slot, a year and the sum that contradict |
| PeriodAnswers.HandlePeriods | libs/household-api/policyengine_household_api/endpoints/household.py:196-219 | On the nested payload: refused exactly when a numeric month-defined entry has all twelve months of a year given and their sum contradicts the year; otherwise one warning for each entry and year that sets some but not all months without a value of its own while an annual figure is asked for, with those months, and no other; plain annual inputs keep their totals |
| PeriodAnswers.InconsistentIsContradictory | libs/household-api/policyengine_household_api/country.py:322-353 | The validator's test fails exactly for a year whose months, each by the last number the dictionary holds for it, are all given and do not sum to the year's value |
| PeriodAnswers.HazardExactly | libs/household-api/policyengine_household_api/country.py:187-272 | What the detector calls a hazard, entry by entry of the payload |
| PeriodPipeline.WarningsArePartialYears | libs/household-api/policyengine_household_api/country.py:187-272 | What the detector reports on the raw slots is exactly what is partial in the normalised ones |
| PeriodPipeline.AcceptedTotalsSurvive | libs/household-api/policyengine_household_api/country.py:356-448 | In an accepted household, the normalised months of every numeric annual input add up to exactly that input |
| ReleaseManifests.ValidateManifest | libs/household-common/policyengine_household_common/release_manifest.py:130-159 | Accepts exactly the valid manifests and returns them unchanged; a missing manifest is the empty one |
| ReleaseManifests.ApplyReleaseConfig | libs/household-common/policyengine_household_common/release_manifest.py:162-227 | Succeeds exactly for a valid manifest with a valid new app when one is needed; which app each channel holds afterwards for each target, with and without promotion; the replaced apps are retired with time and reason |
| ReleaseManifests.AppRefusedExactly | libs/household-common/policyengine_household_common/release_manifest.py:398-418 | An app reference is refused for a key outside the schema, an empty name or time, another country, or a missing or empty version of "uk" or "us", and for nothing else |
| ReleaseManifests.UniqueAppNames | libs/household-common/policyengine_household_common/release_manifest.py:446-454 | The loop yields each retired name that is not active once, in the order of first occurrence |
| ReleaseManifests.CleanupAppNamesForTarget | libs/household-common/policyengine_household_common/release_manifest.py:230-279 | What each target lists, and that it refuses exactly when the chosen channel's app is active |
| ReleaseHistories.ReleaseConserves | libs/household-common/policyengine_household_common/release_manifest.py:176-226 | For every app reference, current, frontier and retired together gain exactly the new app, twice when it takes both channels |
| ReleaseHistories.PruneRemovesListed | libs/household-common/policyengine_household_common/release_manifest.py:334-344 | A prune removes every retired entry of a listed name and no other |
| ReleaseHistories.NothingIsLost | libs/household-common/policyengine_household_common/release_manifest.py:162-227 | Over any history of releases and prunes, initial plus deployed copies equal remaining plus pruned copies of every app |
| RolloutHistories.CurrentOnlyByPromotion | libs/household-common/policyengine_household_common/release_manifest.py:176-192 | Over any history, an app released to the frontier is current only after the first deployment that follows its release, and only if that is a promoting frontier release |
| RolloutHistories.PromotionMakesCurrent | libs/household-common/policyengine_household_common/release_manifest.py:176-192 | The first promoting frontier release after it, with no deployment between, does make it current |
| RolloutHistories.ChannelsAfter | libs/household-common/policyengine_household_common/release_manifest.py:176-226 | The channels after one update, by its target |
| ReleaseHistories.LateCleanupIsSafe | libs/household-common/policyengine_household_common/release_manifest.py:230-279 | A cleanup list never names an app active in its manifest or in any later one, as long as no release reuses a listed name |
| ReleaseHistories.LateCleanupIsSafeExactly | libs/household-common/policyengine_household_common/release_manifest.py:162-279 | No listed name is active after any of the updates if and only if no release among them reuses a listed name |
| ReleaseHistories.ReplacedChannelIsRetired | libs/household-common/policyengine_household_common/release_manifest.py:258-269 | Cleaning a channel against the previous manifest names nothing that cleaning everything retired would not |
| ReleaseHistories.CleanupCycleKeepsActive | projects/modal-api/policyengine_household_modal/prune_manifest.py:46-63 | Pruning a late cleanup list leaves both channels, and every retired entry of a name they serve, in place |
| AppNames.DottedNamesAreUnique | libs/household-common/policyengine_household_common/release_manifest.py:82-94 | For dotted numeric versions, two releases share an app name if and only if they share both versions |
| AppNames.SlugsCollide | libs/household-common/policyengine_household_common/release_manifest.py:457-459 | For all versions: two have the same slug if and only if they have the same lower-cased alphanumeric runs |
| AppNames.SlugSpellsVersion | libs/household-common/policyengine_household_common/release_manifest.py:457-459 | A slug spells the version's letters and digits, in order and lower case, or "unknown" when there are none; dashes are its only other characters, and never at an end |
| AppNames.NamesCollide | libs/household-common/policyengine_household_common/release_manifest.py:82-94 | For all versions: two releases share an app name if and only if the runs of their names, with "us" in front of the first US run, are the same |
| AppNames.NameDeterminesExactly | libs/household-common/policyengine_household_common/release_manifest.py:82-94 | A name determines the runs of both versions if and only if no run of either version after its first starts with "us" and goes on |
| VersionRouters.ActiveVersionsForCountry | libs/household-common/policyengine_household_common/version_routing.py:56-69 | The loop yields the non-empty versions the channels serve for a country |
| VersionRouters.ResolvesExactly | libs/household-common/policyengine_household_common/gateway.py:180-223 | On the manifest and the request alone: a channel asked for by name, "current" by default, is that channel or an error; anything else is the first channel, current before frontier, that serves the version |
| VersionRouters.UnsupportedListsServed | libs/household-common/policyengine_household_common/gateway.py:205-223 | The error for an unsupported version lists exactly the non-empty versions the channels serve for the country |
| VersionRouters.BuildFailoverManifest | projects/cloud-run-failover-api/policyengine_household_failover/manifest.py:110-142 | Succeeds exactly when every serving channel has a non-empty worker URL, and then mirrors both channels |
| VersionRouters.ValidateFailoverManifest | projects/cloud-run-failover-api/policyengine_household_failover/manifest.py:70-107 | Accepts exactly the manifests whose references have an app name, a URL and a package version; a channel without an entry serves nothing |
| VersionRouters.RoutersAgree | libs/household-common/policyengine_household_common/gateway.py:180-223 | For any country and requested version the two gateways succeed together on the same app, channel and version, and fail together with the same error and available versions |
| VersionRouters.ViewHidesUrlOnly | projects/cloud-run-failover-api/policyengine_household_failover/manifest.py:188-217 | The public entry hides the worker URL and nothing else: with the URL the reference can be read back, and two references share an entry exactly when they differ in the URL only |
| VersionRouters.PublicViewsAgree | projects/cloud-run-failover-api/policyengine_household_failover/manifest.py:188-217 | A channel's public entry equals the Modal gateway's exactly when the app has no empty analytics revision |
| AnalyticsPersistence.ExactlyOnce | libs/household-analytics/policyengine_household_analytics/persistence.py:31-76 | In every reachable state: at most one request row per uuid, whose visit was written by a delivery of the event, with one variable row per summary in order; and one as soon as any delivery returned |
| AnalyticsPersistence.OneVisitPerRequest | libs/household-analytics/policyengine_household_analytics/persistence.py:41-66 | Deliveries that lose the race leave no visit: a committed visit of the event is the one its request row names |
| AnalyticsPersistence.CommittedCounts | libs/household-analytics/policyengine_household_analytics/persistence.py:112-147 | A committed request row counts the distinct, the unsupported and the deprecated variable names of its event |
| AnalyticsPersistence.RolledBackReturns | libs/household-analytics/policyengine_household_analytics/persistence.py:72-87 | A delivery that was rolled back returns normally if and only if its request has been recorded by then |
| AnalyticsPersistence.RecordedForever | libs/household-analytics/policyengine_household_analytics/persistence.py:66-71 | A committed request stays committed whatever later deliveries do |
| AnalyticsPersistence.RunKeepsInvariant | libs/household-analytics/policyengine_household_analytics/persistence.py:31-87 | Unique uuids, fresh ids and complete rows hold after any interleaving of statements, integrity errors and crashes |
| AnalyticsPersistence.RecordAnalytics | libs/household-analytics/policyengine_household_analytics/persistence.py:31-66 | Undisturbed, a delivery is a no-op for a recorded request and otherwise commits one visit, one request row and its variable rows |
| AnalyticsPersistence.RequestCountsFit | libs/household-analytics/policyengine_household_analytics/persistence.py:112-147 | Unsupported and deprecated counts together never exceed the distinct count, nor that the number of summaries |
| MigrationAncestry.KnownRevisionDescendsFrom | libs/household-analytics/policyengine_household_analytics/analytics_setup.py:263-298 | Terminates on every finite graph; true only for a reachable minimum; exact when every parent of a reachable revision can be looked up |
| MigrationAncestry.PushParents | libs/household-analytics/policyengine_household_analytics/analytics_setup.py:287-297 | Pushes exactly the resolved parents, or stops at a parent that cannot be looked up |
| VariableUsage.ExtractVariableUsage | libs/household-common/policyengine_household_common/variable_usage_analytics.py:84-123 | The output is strictly sorted, has one summary per (variable, entity type, source), and each is the fold of its own occurrences |
| VariableUsage.CountsOnPayload | libs/household-common/policyengine_household_common/variable_usage_analytics.py:50-68 | The reported counts add up to a total computed on the payload: the number of period entries, or 1, of every variable entry outside the axes that is not the member list, plus 1 for each axis with a non-empty name |
| VariableUsage.OccurrencesExactly | libs/household-common/policyengine_household_common/variable_usage_analytics.py:126-221 | The occurrences behind the report are exactly those of the payload's variable entries and named axes |
| VariableUsage.SummariesDescribe | libs/household-common/policyengine_household_common/variable_usage_analytics.py:240-261 | Each summary counts the distinct entities and periods of its group, names their one granularity or calls it mixed, and tells known, deprecated and unknown variables apart |
| VariableUsage.SourceMeans | libs/household-common/policyengine_household_common/variable_usage_analytics.py:301-322 | An entry is a requested output when all its periods ask for output or it has none, an input when none does, mixed otherwise |
| VariableUsage.EntityTypeMeans | libs/household-common/policyengine_household_common/variable_usage_analytics.py:264-276 | An entity type is the known variable's own, else that of the group the variable appears under, else "unknown" |
| VariableUsage.RankIsTextOrder | libs/household-common/policyengine_household_common/variable_usage_analytics.py:113-122 | Sources sort as their texts do |
| VariableUsage.GranularityMeans | libs/household-common/policyengine_household_common/variable_usage_analytics.py:342-350 | Four digits are a year, with a dash and two digits a month, with that twice a day, each with or without one trailing line feed |
| VariableUsage.OutputIgnoresValues | libs/household-common/policyengine_household_common/variable_usage_analytics.py:84-123 | Households that differ only in non-null values or in axis fields other than name and period give identical output |
| VariableUsage.VariableUsageAccumulator.AddEntityPeriods | libs/household-common/policyengine_household_common/variable_usage_analytics.py:50-60 | In place: the count grows by the number of periods, or by 1 when there are none; entity, periods and granularity join their sets |
| VariableUsage.UsageTable.AddUse | libs/household-common/policyengine_household_common/variable_usage_analytics.py:224-237 | In place: one more occurrence goes to its own accumulator and every other group keeps its fold |
| ConfigLayers.DeepMerge | libs/household-common/policyengine_household_common/config_loader.py:420-445 | The recursive key-by-key loop computes the merge |
| ConfigLayers.MergedLookup | libs/household-common/policyengine_household_common/config_loader.py:420-445 | What a lookup in a merged configuration finds, from the two layers alone: the override where it has a say, the base exactly where it has none |
| ConfigLayers.TopLayerWins | libs/household-common/policyengine_household_common/config_loader.py:81-111 | Over any number of layers, a path reads as the leaf of the highest layer with a say, and as missing when that layer has a leaf on the way |
| ConfigLayers.UndecidedIsMissing | libs/household-common/policyengine_household_common/config_loader.py:447-470 | A path no layer has a say about reads as missing |
| ConfigLayers.Get | libs/household-common/policyengine_household_common/config_loader.py:447-470 | The moving cursor finds what the path leads to |
| ConfigLayers.SetFailsBelowLeaf | libs/household-common/policyengine_household_common/config_loader.py:365-385 | Setting a nested value fails exactly when a leaf lies on the way |
| ConfigLayers.SetLookup | libs/household-common/policyengine_household_common/config_loader.py:365-385 | A set path reads back its value, nothing lies below it, and unrelated paths are unchanged |
| ConfigLayers.LoadsExactly | libs/household-common/policyengine_household_common/config_loader.py:329-385 | The environment loads if and only if no override path lies below the path of an earlier one |
| ConfigLayers.OverrideReadsBack | libs/household-common/policyengine_household_common/config_loader.py:329-385 | Of overrides that load, one that no later override replaces, at its path or above it, reads back its value |
| ConfigLayers.ReplacedReadsMissing | libs/household-common/policyengine_household_common/config_loader.py:329-385 | One whose path lies below a later override reads as missing |
| ConfigLayers.ConfigLoader.Load | libs/household-common/policyengine_household_common/config_loader.py:71-111 | In place: the first call merges the three layers in order and keeps the result, later calls return it |
| ConfigLayers.EnvironmentWins | libs/household-common/policyengine_household_common/config_loader.py:104-108 | Loading succeeds exactly when the overrides load, and an override that no later one replaces then reads back its value whatever the files say |
| ConfigLayers.FilesInOrder | libs/household-common/policyengine_household_common/config_loader.py:81-111 | Where no environment override touches a path, the external file decides it wherever it has a say, and the default file is read exactly where it has none |

## Left out

- Flask routing, HTTP, authentication, Modal, Cloud Storage, Cloud Tasks, Slack and observability: input and output. Every backend call is an arbitrary outcome of the request.
- The policyengine-core period parser and the country simulations: not part of this model. Keys arrive parsed; keys that are neither a plain year nor a month of it are `Other` and are never touched.
- Float rounding, infinities and NaN: amounts and times are exact reals.
- PeriodBudgets.AnnualTotalIsConserved: assumes numbers or nulls in the months of the year, because a non-numeric month of a numeric variable has no amount to add, and one number per month, because of two spellings of a month the later one wins.
- VersionRouters.ValidateFailoverManifest: takes a typed manifest; its schema version, environment and timestamp strings are not modelled.
- VersionRouters.PublicVersionsView: models the channel entries, not the schema version beside them.
- ConfigLayers.SetNested: updates nested dictionaries as values; the partly updated dictionary that an exception abandons is not modelled.
- ConfigLayers.Loaded: takes layers already read from YAML with variables substituted, and override values already converted to their types.
- VariableUsage.ExtractVariableUsage: an entity is a pair of group and id, where the source joins the two with a NUL character.
- VariableUsage.PeriodGranularity: recognises ASCII digits only, where the source's pattern also accepts other decimal digits.
- RequestRouting.Route: requests of one run follow one another; OverlappingRequests lets them overlap on one channel, and CircuitHistories holds for every interleaving.
- RequestRouting.Outcome: an exception other than the three endings of an operation, such as a raising `executor.submit`, which ends the request without an answer, is not an outcome.
- AnalyticsPersistence.Next: a duplicate uuid is detected when the request row is flushed or when it commits; locking inside the database is not modelled.
- ReleaseManifests.ValidateManifest: takes typed references, so missing keys and values of a wrong type cannot occur in its input.
- ReleaseManifests.ApplyReleaseConfig: takes typed references, so only the schema checks that a typed reference can fail are modelled.
- The manifest rewrite for storage, which deliberately discards retired history, and the summary of active deployments.
- The manifest cache, Slack cooldown, warm-up loop and deprecated-input removal: they would only add easier members.
