# Verified model of the release and deploy gates

This project models the parts of the repository that hold real protocols, state machines and round trips, and proves
what they promise. `dafny verify dfyconfig.toml` checks everything.

Each component is given twice: as a pure function from inputs to the outcome with all its error exits, and as a
class or method in the form of the program, with its fields, loops and early exits, proved equal to that function.
The promises are then lemmas about the function. Whatever the program cannot decide itself (replies of a registry,
outcomes of Docker, rsync, git and rename calls, the clock, hashes, field patterns) is a parameter, so each lemma holds
for every behaviour of the environment. Methods without loops that only follow their function step by step have no row
below; the lemmas about the function do.

| file | what it models |
|---|---|
| `OciLayout`, `OciGraph`, `OciReading`, `OciShapes` | the recursive walk over an exported image layout, against reachability in its graph |
| `RegistryClient`, `TokenRealms`, `Publisher`, `PublishingConditions` | the registry client with its shared credential budget, a whole publishing run, and exactly which layouts it publishes safely |
| `StaticSite` | promotion of a static site over volumes and directories, with rollback |
| `DeliveryProtocol`, `DeliveryRefinement`, `DeliveryInterleaving`, `ServiceLock` | interleaved deliveries under service locks, refined by the execution of one, alone and among others; the timed wait for a lock |
| `DeliveryRequest`, `GateEvidence`, `DeliveryExecutor`, `DeliveryManifest` | one delivery from its request to its manifest and rollback plan |
| `RemediationLifecycle`, `RemediationWindow`, `RemediationOrder`, `RemediationDates`, `WindowContract`, `WindowLimits` | reviewed histories, the evaluation of findings over time, the publisher's gate that reads its outputs, and where the two part |
| `EnvWriter` | the environment-file writer and a reader for what it writes |
| `ManifestRetention`, `Timestamps`, `TextOrder` | retained deployment manifests, the order of their names, and dates that are printed and read again |
| `RetryNetwork`, `ComponentNames`, `EvidenceBundle` | bounded retry, unique component names, evidence bundles |
| `Wrappers`, `Collections`, `Texts` | shared results, sequences without repetition, decimals |

## Where the code does less than its reader may expect

These are stated as they are. Each has a lemma with the exact condition, named first, and one at an input at which the
expected property fails, named second.

- The manifests that are loaded are exactly those below the root, children first, only for graphs with one media type
  per digest and no cycle, and only those are published safely by every registry (`ExactGraphIff`,
  `PublishingIsSafeIff`). A digest under two media types is read under one of them only (`LoadedIsReading`,
  `SecondTypeIsSkipped`, `TwiceListingExists`); an index that lists itself is pushed before itself
  (`SelfListingIsMisordered`, `SelfListingExists`). An index of images, as builds export it, is fine
  (`IndexOfImagesIsLoaded`).
- A plain token realm is accepted by how it begins, so its host is the machine itself only if nothing but a port, path,
  query or fragment follows (`AllowedIsPrivateIff`, `LongerHostIsAllowed`).
- A static-site deployment that passes publishes exactly what was built, and has built every required output, only if
  the candidate volume held nothing, or none of the outputs, because removing that volume may fail and the builder
  writes over what is there (`AlwaysPublishesBuildIff` and `AlwaysBuildsOutputsIff`, `StaleOutputPasses`).
- A rolled-back static-site deployment restores the live volume only if the backup volume held nothing but paths of the
  live volume, because backup and rollback copy over what is there (`AlwaysRestoresLiveIff`, `LeftoverReachesLiveSite`).
- A failed deployment leaves source and site as they were only under a condition on the phase that fails
  (`FailureIsAtomicIff`): a failing evidence write comes after the backup volume is removed and loses the live site
  (`EvidenceFailureLosesLiveSite`), and a failing removal of the old source leaves the new source beside the old site
  (`UnremovableBackupSplitsSourceFromSite`).
- A source that neither rename could put back survives a second run of the same commit only if that run fails to clear
  it and leaves it whole, or puts an equal tree in its place (`StrandedSurvivesIff`, `RetryLosesStrandedSource`).
- Deliveries to one destination exclude each other only if they share one lock (`ExclusiveIffOneLock`,
  `TwoLocksCollide`); adapters that share their roots do (`SharedRootsGiveOneLock`).
- A failed gate's reason is prefixed with its name and may then exceed what a manifest holds
  (`ResultIsRecordableIffReasonFits`, `LongestReasonCannotBeRecorded`).
- The verdict on findings is free of their order only if equal keys carry equal risks (`OrderFreeIffAgree`,
  `OneKeyTwoRisks`): the key leaves out severity and the reasons to refuse outright.
- The publisher's gate reads counts of at most ten digits, so it agrees with the evaluation only below that
  (`GateAgreesWithVerdictIff`, `TenBillionFindingsAreRefused`).
- The recorded evidence refuses an image reference that is too long or has blanks where the gate itself would not look
  (`EvidenceAgreesWithGateIff`, `SpacedNameIsRecordedAsRefused`).
- Whether years below 1000 are printed with four digits depends on the platform and is a parameter. With padded years
  texts are ordered as times and read back. Without, texts follow times, the least deadline text is the earliest, and
  the newest manifests are retained only within years of equally many digits (`TextsFollowTimesIff`,
  `MinimaAreEarliestIff` and `RetentionIsExactIff`, `LongerYearsMisorder` and `LongerYearIsLost`), and a policy can be
  evaluated only if its printed dates have four digits (`EvaluatesAllIff`, `EarlyEntryNeedsPadding`).
- A manifest written after the clock went back may be pruned by its own write (`WrittenSurvivesIff`,
  `ClockGoneBackLosesManifest`).
- A suffix can make a component name longer than the pattern of safe names allows (`AllNamesAreSafeIff`,
  `RepeatedLongNameIsUnsafe`).

## Model

| member | source | states |
|---|---|---|
| OciLayout.GraphLoader.VisitDescriptor | scripts/container_release/push_oci_layout.py:128-152 | the recursive visit, appending in place, computes the specified walk and ends on every finite layout, cyclic ones included |
| OciLayout.GraphLoader.VisitListed | scripts/container_release/push_oci_layout.py:137-141 | the loop over an index's children leaves the accumulators of the specified walk, or its first error |
| OciLayout.GraphLoader.CollectBlobs | scripts/container_release/push_oci_layout.py:142-149 | the loop over config and layers keeps each blob once, in order of first mention, or stops at the first bad one |
| OciGraph.AllGoodLoads | scripts/container_release/push_oci_layout.py:111-155 | every layout in which all that is reachable from the root passes its checks is loaded |
| OciReading.LoadedIsReading | scripts/container_release/push_oci_layout.py:128-155 | whatever the layout, what is loaded reads each digest once: there are reachable descriptors, one for each digest, all passing their checks and closed under listing by digest, whose configs and layers are exactly the blobs and whose listed digests are exactly those of the manifests |
| OciReading.ReadingIsReachable | scripts/container_release/push_oci_layout.py:128-155 | with one media type per digest, those descriptors are all the reachable ones |
| OciGraph.ExactGraphIff | scripts/container_release/push_oci_layout.py:124-155 | for every layout that loads: the manifests are each one below the root once, children first and without the root, the blobs exactly the reachable configs and layers, and everything reachable passed its checks, if and only if the graph has one media type per digest and no cycle |
| OciGraph.VisitCollects | scripts/container_release/push_oci_layout.py:128-152 | whatever the graph, no digest is collected twice and every collected blob passed its check |
| OciShapes.IndexOfImagesIsLoaded | scripts/container_release/push_oci_layout.py:124-155 | an index whose children are checked images is acyclic and loaded, and has one media type per digest if and only if no digest is listed under two types or as the root |
| OciShapes.SecondTypeIsSkipped | scripts/container_release/push_oci_layout.py:132-135 | when a digest is listed as an index and again as an image, loading succeeds without collecting the image's configuration |
| OciShapes.TwiceListingExists | scripts/container_release/push_oci_layout.py:132-135 | two files make such a layout |
| OciShapes.SelfListingIsMisordered | scripts/container_release/push_oci_layout.py:132-141 | for an index that lists itself the walk ends and puts the root in front of itself |
| OciShapes.SelfListingExists | scripts/container_release/push_oci_layout.py:132-141 | one file makes such a layout |
| RegistryClient.Client.SendAuthorized | scripts/container_release/push_oci_layout.py:242-285 | the retry loop ends, and its session, log and outcome are those of the specified request |
| RegistryClient.Client.Push | scripts/container_release/push_oci_layout.py:287-299 | a blob that is missing is uploaded, restarting the whole upload after each refresh; the loop ends |
| RegistryClient.Request | scripts/container_release/push_oci_layout.py:242-285 | refreshes never fall, and giving up for new credentials has used one within the budget |
| RegistryClient.UploadUntilAuthorized | scripts/container_release/push_oci_layout.py:294-299 | the restart loop never ends in a pending authorization |
| Publisher.PushOciLayout | scripts/container_release/push_oci_layout.py:350-393 | a whole run over the client object equals the specified run from its state |
| PublishingConditions.PublishingIsSafeIff | scripts/container_release/push_oci_layout.py:350-393 | a layout that loads has one media type per digest and no cycle if and only if every registry publishes it safely under every tag: on every prefix of every run, also one that stops on an error, a manifest is sent only after all it refers to is confirmed, the tag only after the whole tree and as the last write, and the root under its tag only |
| PublishingConditions.OrderAloneAllowsTwoTypes | scripts/container_release/push_oci_layout.py:137-141 | a root listed again under another type is sent under its own digest, with every reference confirmed and the tag last |
| PublishingConditions.OwnListingExists | scripts/container_release/push_oci_layout.py:137-141 | one file makes such a layout |
| PublishingConditions.TokensComeFromAllowedRealms | scripts/container_release/push_oci_layout.py:209-240 | in every run, whatever challenges it meets, credentials are traded for a token at allowed realms only |
| TokenRealms.AllowedIsPrivateIff | scripts/container_release/push_oci_layout.py:221-223 | an allowed realm uses https or goes to the machine itself if and only if it begins with https, or nothing but a port, path, query or fragment follows the loopback name, or that name is only user information in front of a loopback host |
| TokenRealms.LongerHostIsAllowed | scripts/container_release/push_oci_layout.py:221-223 | an allowed plain realm whose host only begins like the machine's own name |
| Publisher.PushManifestAdds | scripts/container_release/push_oci_layout.py:325-337 | a manifest counts as pushed only when the last exchange is its own PUT, accepted with 201 and no other digest; nothing else is sent but calls for credentials |
| Publisher.UploadBlobAdds | scripts/container_release/push_oci_layout.py:301-323 | an upload counts as done only when the log confirms that blob; it sends nothing but that blob and calls for credentials |
| Publisher.AuthenticateAdds | scripts/container_release/push_oci_layout.py:209-240 | fresh credentials cost at most two calls, sleep and refreshes stay, and success leaves a known challenge |
| Publisher.PublishedMeansResolved | scripts/container_release/push_oci_layout.py:339-393 | a normal return means that the registry accepted the root under the tag and last reported the tag as resolving to the expected digest |
| Publisher.PublishingIsBounded | scripts/container_release/push_oci_layout.py:242-299 | refreshes stay within the budget, total sleep is exactly 2^refreshes - 1 and at most 31 seconds, and requests are at most 3 blobs + manifests + 4 + 3 refreshes |
| Publisher.PushManifestsSafe | scripts/container_release/push_oci_layout.py:386-390 | pushing a children-first list keeps the log safe at every step and confirms each node |
| Publisher.RequestCosts | scripts/container_release/push_oci_layout.py:242-285 | one request costs one call and two more for each refresh, keeping sleep at 2^refreshes - 1 |
| Publisher.TagIsNotDigest | scripts/container_release/push_oci_layout.py:78-88 | no accepted tag can be mistaken for a digest reference |
| StaticSite.Deployment.VerifyOutputs | scripts/static_site/runner.py:178-181 | all required outputs are present, one container each, stopping at the first failure |
| StaticSite.FailureRestoresLiveIff | scripts/static_site/runner.py:275-286 | a rolled-back failure before cleanup leaves the live volume as it was if and only if it was never touched or the backup volume held no other path |
| StaticSite.AlwaysRestoresLiveIff | scripts/static_site/runner.py:228-286 | every rolled-back failure before cleanup restores the live volume, whatever the environment does, if and only if the backup volume holds no path beyond the live volume's when the run begins |
| StaticSite.LeftoverReachesLiveSite | scripts/static_site/runner.py:230-279 | a page left in the backup volume is on the live site after a rollback |
| StaticSite.DeployStops | scripts/static_site/runner.py:228-298 | the phase in which a run stops and whether it rolls back, decided from the environment alone |
| StaticSite.FailureIsAtomicIff | scripts/static_site/runner.py:228-298 | every run that starts and does not pass, at any exit, leaves source and site as they were if and only if the environment keeps both in the phase where it stops the run |
| StaticSite.Deployment.DeployStaticSite | scripts/static_site/runner.py:197-298 | a whole run over the host: passing leaves the built site over what the candidate volume still held, with every output, the new source and a passed verdict; failing keeps source and site exactly under the stated condition |
| StaticSite.Deployment.HandleFailure | scripts/static_site/runner.py:275-298 | a failed verdict is recorded exactly when the exit is a recorded failure, an untouched live volume stays, and a rollback that works leaves the backup's contents |
| StaticSite.StrandedSurvivesIff | scripts/static_site/runner.py:214-218 | after a run that stranded the old source, the old tree is in its place or in the backup directory after a second run of the same commit if and only if that run fails to clear the backup and leaves it whole, or puts an equal tree in its place |
| StaticSite.RetryLosesStrandedSource | scripts/static_site/runner.py:214-218 | a concrete stranded source is lost by a second run that passes |
| StaticSite.SuccessPromotesCandidate | scripts/static_site/runner.py:230-274 | success leaves the built site over what was left in the candidate volume, with every required output, the new source and a passed verdict; that is exactly the build if and only if nothing else was left |
| StaticSite.AlwaysPublishesBuildIff | scripts/static_site/runner.py:228-274 | every passing run publishes exactly what was built, whatever the environment does, if and only if the candidate volume holds nothing when the run begins |
| StaticSite.AlwaysBuildsOutputsIff | scripts/static_site/runner.py:230-241 | in every passing run all required outputs were built if and only if the candidate volume holds none of them when the run begins |
| StaticSite.StaleOutputPasses | scripts/static_site/runner.py:230-241 | a concrete run passes and publishes a required page that the build did not make |
| StaticSite.SourceAfterFailure | scripts/static_site/runner.py:252-283 | the source tree after a failure is the new one exactly when the stage was renamed, and otherwise the old one or stranded whole in the backup |
| StaticSite.FailedEvidenceWrite | scripts/static_site/runner.py:262-281 | what a failure after the promotion leaves: the rollback copies from a backup that may be gone |
| StaticSite.EvidenceFailureLosesLiveSite | scripts/static_site/runner.py:262-281 | a concrete run in which only the evidence write fails and the live site is empty |
| StaticSite.UnremovableBackupSplitsSourceFromSite | scripts/static_site/runner.py:256-283 | a concrete run that ends with the new source and the old site |
| StaticSite.GuardedKeepsBackup | scripts/static_site/runner.py:243-262 | from backup until cleanup the backup volume holds the old contents |
| DeliveryProtocol.ExclusiveIffOneLock | scripts/delivery/executor.py:234-288 | over all interleavings, at most one process is inside a destination if and only if equal destinations have equal locks |
| DeliveryProtocol.TwoLocksCollide | scripts/delivery/executor.py:234-288 | a four-step schedule puts two processes inside one destination that has two locks |
| DeliveryProtocol.SharedRootsGiveOneLock | scripts/delivery/plan.py:46-74 | deliveries that share lock and deploy roots have one lock for each destination |
| DeliveryProtocol.ExitsFreeLocks | scripts/delivery/lock.py:129-148 | in every reachable state whoever holds a lock is inside; every exit, also a death, has freed it |
| DeliveryProtocol.DeliveriesAreOrdered | scripts/delivery/executor.py:234-288 | a sync begins only after its own preflight passed, no other sync falls between a sync and its postflight, and postflight examines what its process synchronized |
| DeliveryProtocol.LocksAlwaysMatch | scripts/delivery/lock.py:102-148 | after every schedule exactly the processes inside hold their locks |
| DeliveryRefinement.ExecutionRefinesProtocol | scripts/delivery/executor.py:215-288 | a process that has its lock and is not interrupted takes protocol steps that end as its execution ends, free its lock, and leave its destination synchronized, torn or untouched as the execution leaves its disk |
| DeliveryInterleaving.InterleavedExecutionEnds | scripts/delivery/executor.py:215-288 | in every schedule with one lock per destination, a process that has its lock and does what its execution does ends so too, whatever other processes do in between |
| DeliveryInterleaving.ScheduleExists | scripts/delivery/executor.py:215-288 | every execution is done by a process in some such schedule |
| DeliveryInterleaving.KeepsPace | scripts/delivery/lock.py:102-148 | while a process is inside, it is where it would be if it ran alone, and so is its destination |
| ServiceLock.LockFile.Acquire | scripts/delivery/lock.py:129-140 | the retry loop ends, its ending is that of the specified wait, and the lock is held exactly after success |
| ServiceLock.LockFile.WithLock | scripts/delivery/lock.py:102-148 | the body runs exactly when the lock was acquired within a valid timeout, and no exit keeps it |
| ServiceLock.WaitIsBounded | scripts/delivery/lock.py:130-140 | at most 20 timeout + 2 tries, sleep at most the timeout, giving up only past the deadline with every try busy, one try for timeout zero |
| ServiceLock.AcquiredIff | scripts/delivery/lock.py:132-140 | the lock is acquired if and only if some try finds it free after busy tries with time left |
| GateEvidence.EvaluateGateEvidence | scripts/delivery/gate_evidence.py:100-165 | the loop and the ordered checks compute the specified evaluation or the first error |
| GateEvidence.PassesIff | scripts/delivery/gate_evidence.py:124-165 | an evaluation passes if and only if every required gate passed and no gate at all failed |
| GateEvidence.EvidenceIsKept | scripts/delivery/gate_evidence.py:114-165 | the evidence of an evaluation is the supplied gates: nothing lost, invented or repeated |
| GateEvidence.JudgedPassedIff | scripts/delivery/gate_evidence.py:124-165 | for gates with unique names, judging passes exactly when required ones passed and none failed, and only then without a reason |
| DeliveryRequest.CanonicalFormIsPayload | scripts/delivery/request.py:92-158 | the canonical form of a parsed request is the payload it came from |
| DeliveryRequest.IdentityParsesBack | scripts/delivery/rollback.py:122-138 | the seven identity fields parse back to the same request without its reason |
| DeliveryExecutor.DestinationIsProtected | scripts/delivery/executor.py:234-288 | the destination changes only after all preflight gates passed; old snapshots stay, and a reported snapshot holds the filtered old contents |
| DeliveryExecutor.Host.SyncDeployment | scripts/delivery/snapshot_sync.py:237-297 | an unchanged report leaves the disk alone, no snapshot is ever replaced, and a changed destination was saved first when snapshots are on |
| DeliveryExecutor.Host.ExecuteDelivery | scripts/delivery/executor.py:215-288 | the disk changes only after every preflight gate passed, a changed destination was saved first when snapshots are on, and a result is ready exactly when it gives no reason |
| DeliveryManifest.FailureReasonOverflowsIff | scripts/delivery/gate_evidence.py:141-153 | the reason exceeds the limit exactly when it carries a gate's own reason that is too long for its prefix |
| DeliveryManifest.ResultIsRecordableIffReasonFits | scripts/delivery/manifest.py:91-156 | the manifest validator accepts every result of an execution for a parsed request if and only if the gates that decide it report a name and reason that fit 510 characters together |
| DeliveryManifest.ExecutedResultIsRecordableIff | scripts/delivery/manifest.py:91-156 | of all the validator's checks only the one on the failure reason can refuse an executed result |
| DeliveryManifest.LongestReasonCannotBeRecorded | scripts/delivery/manifest.py:56-67 | a failed gate with the longest allowed reason gives a reason that no manifest holds |
| DeliveryManifest.PlanIffDeliveredWithSnapshot | scripts/delivery/rollback.py:105-208 | a manifest yields a rollback plan if and only if the operator approves that service and commit and the delivery was ready, changed, saved and synchronized; the plan names the original identity and the old filtered contents |
| DeliveryManifest.LoneGateIsCanonical | scripts/delivery/manifest.py:117-128 | a gate that passed its own check is canonical evidence for the manifest |
| RemediationLifecycle.NormalizeLifecycle | scripts/security_gate/remediation_lifecycle.py:39-171 | the loop over a history computes the specified lifecycle or the first error |
| Timestamps.TextsFollowTimesIff | scripts/security_gate/remediation_window.py:72-73 | on the times of a range of years, comparing texts compares times, in both formats, if and only if years are padded or the first and the last year have equally many digits |
| Timestamps.MinimaAreEarliestIff | scripts/security_gate/remediation_window.py:509 | the least of any deadline texts within a range of years is that of an earliest deadline under the same condition only |
| Timestamps.LongerYearsMisorder | scripts/security_gate/remediation_window.py:72-73 | without padding, the texts at the end of the years 9, 99 and 999 compare the wrong way round |
| Timestamps.TimeReadsBackIff | scripts/security_gate/remediation_window.py:62-73 | a printed time is read again as itself if and only if its year is padded or at least 1000, and is otherwise refused |
| Timestamps.ReadsBackIff | scripts/security_gate/remediation_window.py:62-73 | the same as a condition on the instant |
| RemediationLifecycle.AcceptedIff | scripts/security_gate/remediation_lifecycle.py:73-171 | a history is accepted if and only if its actions read extended* (resolved reintroduced?)?, deadlines chain, reviews strictly increase, and the status is the last action's |
| RemediationLifecycle.ExtendedIffRevised | scripts/security_gate/remediation_lifecycle.py:121-148 | the effective deadline exceeds the original exactly when some revision extended it, and never falls below it |
| RemediationLifecycle.PrefixesAreAccepted | scripts/security_gate/remediation_lifecycle.py:73-171 | every non-empty prefix of an accepted history is accepted under its own status |
| RemediationLifecycle.TrackingOutlives | scripts/security_gate/remediation_lifecycle.py:112-148 | a later reference time accepts whatever an earlier one did, with the same outcome |
| RemediationLifecycle.TracksIff | scripts/security_gate/remediation_lifecycle.py:76-158 | tracking succeeds exactly on chained, grammatical histories, with the deadline, status and review of the last revision |
| RemediationWindow.LoadPolicyEntries | scripts/security_gate/remediation_window.py:190-262 | the loop over raw entries computes the specified policy or the first error |
| RemediationWindow.NormalizeObservations | scripts/security_gate/remediation_window.py:441-472 | the loop keeps the first valid observation of each key, in order, and counts the malformed ones |
| RemediationWindow.NearestDeadline | scripts/security_gate/remediation_window.py:508-509 | the loop finds the least deadline among matched entries |
| RemediationWindow.EvaluateRemediationWindows | scripts/security_gate/remediation_window.py:407-531 | a whole evaluation, which reads its printed dates again, returns the specified decision or the first error |
| RemediationDates.EvaluatesAllIff | scripts/security_gate/remediation_window.py:363-364 | a policy that loads can be evaluated for every list of observations if and only if the reference time and the first sighting of each active entry read back once printed |
| RemediationDates.EarlyEntryNeedsPadding | scripts/security_gate/remediation_window.py:363-364 | a policy first seen just before the year 1000 and its finding are evaluated and allowed if and only if years are padded |
| RemediationWindow.CountsAreConserved | scripts/security_gate/remediation_window.py:474-531 | blocking total = covered + rejected + overdue + unmatched + reintroduced; allowed exactly when the total is positive and all covered, and then each one matches an entry |
| RemediationWindow.AllowanceIsBounded | scripts/security_gate/remediation_window.py:363-379 | in an allowed decision every kept observation is within 7 (critical) or 30 (high) days of first sight whatever the extensions, and the future_first_seen branch is never taken |
| RemediationWindow.PolicyOutlives | scripts/security_gate/remediation_window.py:218-232 | a policy accepted at one time is accepted, entry for entry, at every later time |
| RemediationWindow.FindingsOnlyAge | scripts/security_gate/remediation_window.py:334-379 | with time a finding stays or moves from active through due soon to overdue |
| RemediationWindow.BlockedStaysBlocked | scripts/security_gate/remediation_window.py:407-531 | what can be evaluated at one time can be at every later time; a decision blocked then stays blocked, and the nearest deadline does not move |
| RemediationWindow.EveryFindingCountedOnce | scripts/security_gate/remediation_window.py:496-506 | the five counts of states partition the kept observations |
| RemediationWindow.CoveredIsWithinWindow | scripts/security_gate/remediation_window.py:334-379 | a covered finding has a policy entry first seen within its severity's window |
| RemediationOrder.OrderDoesNotMatter | scripts/security_gate/remediation_window.py:441-531 | when equal keys carry equal risks, every reordering of the observations gives the same decision, state, reason, deadline and counts |
| RemediationOrder.RepeatedKeyChangesNothing | scripts/security_gate/remediation_window.py:468-472 | an observation with a key already kept changes nothing |
| RemediationOrder.KeptIsFirstPerKey | scripts/security_gate/remediation_window.py:441-472 | the kept observations are valid ones, exactly one for each key that occurs |
| RemediationOrder.OrderFreeIffAgree | scripts/security_gate/remediation_window.py:441-531 | a list of observations of any length gets the same decision or error in every order, under all policies and times, if and only if equal keys carry equal risks |
| RemediationOrder.OneKeyTwoRisks | scripts/security_gate/remediation_window.py:162-170 | two observations with one key that are allowed in one order and blocked in the other |
| RemediationOrder.NearestIsLeast | scripts/security_gate/remediation_window.py:508-509 | the nearest deadline is the minimum of the matched deadlines, and missing exactly when there are none |
| WindowContract.CountReadsBackIff | scripts/container_release/remediation_window_contract.py:107-110 | a printed count reads back as itself if and only if it has at most ten digits, and is otherwise refused |
| WindowContract.GateAgreesWithVerdictIff | scripts/container_release/remediation_window_contract.py:113-193 | for a bound failing scan the gate accepts the printed outputs if and only if the evaluation allowed them and the total is below 10^10 |
| WindowContract.BoundIffNameAtDigest | scripts/container_release/remediation_window_contract.py:119-132 | a reference is bound to a digest if and only if it is some name followed by '@' and that digest |
| WindowContract.EvidenceAgreesWithGateIff | scripts/container_release/remediation_window_contract.py:204-277 | the recorded acceptance is the gate's own except for unsafe references that are looked at, and promotion always names the scanned image |
| WindowContract.ValidateContract | scripts/container_release/remediation_window_contract.py:46-96 | the loop accepts if and only if pushing, policy file and services are sound and names distinct, keeping every context in order |
| WindowLimits.TenBillionFindingsAreRefused | scripts/container_release/remediation_window_contract.py:107-110 | ten billion covered findings are allowed by the evaluation and refused by the gate |
| WindowLimits.ManyFindingsAreAllowed | scripts/security_gate/remediation_window.py:468-515 | one covered finding in any number of images is counted that often and allowed |
| WindowLimits.SpacedNameIsRecordedAsRefused | scripts/container_release/remediation_window_contract.py:232-238 | a clean pushed image under a name with a space passes the gate and is refused in the recorded evidence |
| EnvWriter.NormalizeSchema | scripts/env_writer/runner.py:38-92 | the loop over entries computes the specified schema or the first error |
| EnvWriter.RenderEnv | scripts/env_writer/runner.py:120-152 | the loop over entries renders the specified text and metadata or the first error |
| EnvWriter.ChainIsOnePass | scripts/env_writer/runner.py:107-117 | the chain of six replacements equals one pass from left to right over the characters |
| EnvWriter.RenderedReadsBack | scripts/env_writer/runner.py:107-152 | splitting a rendered file at newlines, at the first '=' and unescaping gives exactly the rendered keys and values, with distinct keys |
| EnvWriter.AcceptedSchemaIsGood | scripts/env_writer/runner.py:38-92 | an accepted schema has distinct valid keys, bounded values, and no default for a secret |
| EnvWriter.MetadataHidesValues | scripts/env_writer/runner.py:142-151 | two environments with the same values present give the same metadata, whatever the values are |
| EnvWriter.RenderFailsIff | scripts/env_writer/runner.py:120-141 | rendering fails if and only if the schema is refused, a required value is missing, or an environment value is not bounded |
| EnvWriter.QuotingRefusesNothing | scripts/env_writer/runner.py:107-108 | the second check of bounds in quoting refuses no value that an accepted schema can resolve |
| EnvWriter.LineReadsBack | scripts/env_writer/runner.py:107-142 | one rendered line contains no newline and reads back as its key and value |
| ManifestRetention.Directory.Write | scripts/deploy_manifest/write.py:229-257 | a write leaves the specified files, and a refused write changes none |
| ManifestRetention.Directory.RemoveExpired | scripts/deploy_manifest/write.py:243-252 | sorting and unlinking from the retention on leaves exactly the newest manifests by name |
| ManifestRetention.RetentionIsExactIff | scripts/deploy_manifest/write.py:202-257 | after any writes at later and later times of a range of years, under any retention n, the directory holds exactly the n newest manifests with their contents, and the last success even when its own manifest is gone, if and only if years are padded or the first and the last year have equally many digits |
| ManifestRetention.LongerYearIsLost | scripts/deploy_manifest/write.py:202-257 | without padding, a manifest of the year 10, 100 or 1000 is pruned in favour of one of the year before |
| ManifestRetention.ManifestsAreImmutable | scripts/deploy_manifest/write.py:234-236 | a write keeps or removes existing manifests and never changes one, whatever the clock says |
| ManifestRetention.WrittenSurvivesIff | scripts/deploy_manifest/write.py:229-257 | the manifest just written is still there if and only if fewer than the retention have a greater name |
| ManifestRetention.ClockGoneBackLosesManifest | scripts/deploy_manifest/write.py:202-257 | with retention 1 a write whose clock went back removes the manifest that it reports |
| RetryNetwork.RunWithRetry | scripts/container_release/retry_network.py:119-201 | the attempts, pauses and result are those of the specified run; invalid bounds run nothing |
| RetryNetwork.RunAttempts | scripts/container_release/retry_network.py:152-201 | the retry loop ends with the specified log and result |
| RetryNetwork.ResumedRunIsTail | scripts/container_release/retry_network.py:132-201 | a run resumed after k failures is the tail of the uninterrupted run whose first k commands failed transiently: same commands, pauses and result |
| RetryNetwork.OnlyTransientFailuresRepeat | scripts/container_release/retry_network.py:152-201 | all commands but the last failed transiently, and the classification says how the last one ended |
| RetryNetwork.CommandsAreConsecutive | scripts/container_release/retry_network.py:155-187 | attempts run in order without gaps, within the allowed number |
| RetryNetwork.ExhaustedIff | scripts/container_release/retry_network.py:188-201 | a run is exhausted if and only if every attempt left failed transiently |
| RetryNetwork.SucceedsIff | scripts/container_release/retry_network.py:171-175 | a run succeeds if and only if some attempt does after transient failures only |
| RetryNetwork.TotalSleepIsBounded | scripts/container_release/retry_network.py:107-116 | all pauses of a run last at most 210 seconds together |
| ComponentNames.Namer.SafeComponentName | scripts/postgres_major_migration/diagnostics.py:17-30 | the suffix search ends, by pigeonhole on the used names; the name is new and is the specified one |
| ComponentNames.BuildComponentManifest | scripts/postgres_major_migration/diagnostics.py:69-89 | the loop and sort give the specified manifest, or refuse the side or digest |
| ComponentNames.UniqueIsLeastFree | scripts/postgres_major_migration/diagnostics.py:21-30 | a picked name is unused, and is the candidate or the candidate with the least free suffix |
| ComponentNames.TakenSuffixesAreBounded | scripts/postgres_major_migration/diagnostics.py:25-27 | a name is taken under no more suffixes than there are used names |
| ComponentNames.ManifestIsOrdered | scripts/postgres_major_migration/diagnostics.py:77-89 | one component for each input with the hash of its value, names distinct and strictly ascending |
| ComponentNames.PickedNameIsSafeIff | scripts/postgres_major_migration/diagnostics.py:13-30 | a picked name has safe characters only, and is a safe name if and only if the candidate and the least free suffix it needs fit 64 characters |
| ComponentNames.AllNamesAreSafeIff | scripts/postgres_major_migration/diagnostics.py:77-89 | all names of a manifest are safe if and only if every input fits among the names picked before it |
| ComponentNames.ShortNamesStaySafe | scripts/postgres_major_migration/diagnostics.py:77-89 | raw names that leave room for the largest suffix so many inputs can need give safe names only |
| ComponentNames.RepeatedLongNameIsUnsafe | scripts/postgres_major_migration/diagnostics.py:25-30 | a name of 64 characters that occurs twice gives a second name of 66 |
| EvidenceBundle.VerifyEvidenceBundle | scripts/security_evidence.py:271-409 | the ordered checks and loops succeed if and only if the manifest is consistent and describes the directory |
| EvidenceBundle.PassedIff | scripts/security_evidence.py:213-234 | a bundle passes if and only if its gate succeeded and some file is not empty |
| EvidenceBundle.Bundle.CreateEvidenceBundle | scripts/security_evidence.py:183-268 | the loop over files gives the specified manifest and writes it; a refusal, also of a commit other than the expected one, changes nothing |
| EvidenceBundle.AcceptedIffSameFiles | scripts/security_evidence.py:213-391 | unless two of the compared files collide, a created manifest is accepted against a directory if and only if that holds the same paths with the same bytes, no links, and the expected identity |
| EvidenceBundle.AcceptancePinsFilesIff | scripts/security_evidence.py:213-391 | acceptance forces the same files if and only if no file has a twin of its size with its hash |
| EvidenceBundle.OneFileBundle | scripts/security_evidence.py:213-391 | a concrete bundle meets the assumptions, is accepted as made and refused once its file is emptied |
| EvidenceBundle.AcceptedManifestFixesFiles | scripts/security_evidence.py:320-391 | whoever wrote it, a manifest is accepted against one set of files only, unless they collide, and a passed one has content |
| EvidenceBundle.WrittenBundleIsAccepted | scripts/security_evidence.py:213-391 | a bundle is accepted where it was made, after its manifest is written beside the files |
| EvidenceBundle.IndexReadsBack | scripts/security_evidence.py:215-332 | reading back the index of a directory gives exactly the claims that describe its files |

## Left out

- HTTP, Docker, git, rsync and tar themselves: each call is a step with an outcome and an abstract effect.
- Symbolic links (except in evidence bundles), permissions, synchronization to disk and temporary files: a rename is
  one step and a path is a name.
- SHA-256, and the decoding of JSON and YAML: hashes are functions (without collisions where a lemma says so), and the
  models start from decoded values. Fields of the wrong JSON type are modelled in the environment-file schema, and
  elsewhere count as malformed.
- Patterns of single fields, secret-like text and bounded text are parameters, except where a proof depends on their
  characters or length (tags, digests, keys, counts, component names, scalars of manifests).
- RemediationWindow.EvaluateRemediationWindows: leaves out the list of findings, its order and the policy digest (which
  the gate takes as part of its binding); the decision, state, reason, deadline and counts are modelled. The nearest
  deadline is an instant there; `MinimaAreEarliestIff` says when the least text is its text. Fractions of a second of
  the reference time are dropped.
- Images, healthchecks and the other payload fields of manifests: a deployment manifest is its encoded content.
- Strings that cannot be encoded in UTF-8 (lone surrogates from the process environment) are not modelled.
- The order in which directory listings are visited is any order; the sorted listing of evidence files affects only
  the index hash.
- StaticSite.SuccessPromotesCandidate: a builder that completes only adds or replaces files of its volume.
- ServiceLock.WaitIsBounded: assumes that a pause lasts at least as long as was asked, as the platform promises.
- DeliveryManifest.ResultIsRecordableIffReasonFits: assumes that the manifest's secret pattern finds in a failure text
  only what the gates' pattern finds in the gate's reason. The manifest's alternatives are among the gates', a gate name
  is none of their words, and the text puts a colon and a space between name and reason.
- DeliveryProtocol.ExitsFreeLocks: a process that dies frees its lock at once, as the operating system does, although a
  copy that it started may still be writing; that copy is not modelled.
- EvidenceBundle.AcceptedIffSameFiles: assumes that listed paths are already in normal form, as a directory walk gives
  them.
- RetryNetwork.ResumedRunIsTail: the caller that spent the earlier attempts is trusted to have seen transient failures,
  because the wrapper cannot check it.
- Emitted log messages of the retry wrapper, the Windows locking calls, argument parsing, and GitHub outputs other than
  the decimal counts and the fields that the publisher's gate reads.
- Single evidence records and the suite summary (scripts/security_evidence.py:412-676), the concurrency queue contract
  and actionlint filter (scripts/static_lint/runner.py), the exception filter of scanner reports
  (scripts/security_gate/evidence.py), and the volume probe (scripts/deploy/volume_probe_contract.py): each is a
  collection of single-branch checks beside the parts above.
