# Rudder, modelled and verified in Dafny

Rudder is a Kubernetes controller for Helm-like releases. A release document carries a chart, a
configuration and a status; the controller renders it to a manifest, applies the objects, records
every version as a history object, collects what is no longer wanted, and reports the state of the
objects back. This project models the parts of it that keep state or run concurrently and proves
what they promise, for all inputs, all runs and all schedules. `dafny verify dfyconfig.toml` checks
everything.

## Modules

| area | files |
|---|---|
| merge patches and the release document | `MergePatch`, `ReleaseDoc` |
| versions, histories, rollback | `Histories`, `HistoryNames`, `ReleaseProtocol`, `FreshRuns`, `ReusedVersions`, `Retries`, `StaleRuns`, `ReleaseStorage`, `ReleaseApply`, `Rendering`, `Rearming` |
| applying and collecting | `Cluster`, `Client`, `ClientUpdate`, `OwnerIndex`, `Collector`, `Convergence`, `ApplyOutcome` |
| shrinking address lists | `SpecifiedIPs`, `IpShrink`, `ShrinkRuns` |
| manifests, the resource tree and its executors | `Manifest`, `Paths`, `TreeContents`, `ResourceTree`, `Carrier`, `Executor`, `StatusCounters` |
| the write cache | `CacheLayer` |
| handlers and retries | `ReleaseManager`, `RetryLoop` |

Two styles recur. Code that works step by step is a method or a class, proved against a function of
its inputs or its old state. Code whose difficulty is that several parties interleave (worker, user
and collector; the goroutines of a tree; client and kubelet) is a state machine: `Next` says what a
step does, `Enabled` when it can be taken, `IsRun` what a run is, and the theorems hold at every
position of every run. The methods of `ReleaseStorage` and `ReleaseApply` are tied to the machine of
`ReleaseProtocol`: each ends in a state that possible protocol steps lead to, and says exactly when it
succeeds. Applying a workload is likewise a run of `IpShrink` (`ApplyIsARun`), and the status report
carries its shared map along the steps of `Executor`.

"Fresh" runs are those with caches that are current as far as it matters: a target may have been edited,
flushed or published since it was delivered, unless the attempt would fall back to an older unchanged
history; the collector sees no version beyond the server's; a restarted worker has the server's status.
`NumberedOnceIff` and `MissingIff` say for every run, fresh or not, when the same things hold.

## What the code does differently from what one might expect

Each of these is a lemma about the code as it is.

- A rollback to a version that is not there is no error: the attempt re-applies the current manifest
  and marks the release available, with the request still standing (`MissingRollbackLooksAvailable`).
- A rollback request that the storage's copy does not know yet survives the first rollback pass; the
  second pass clears it (`FirstPassClearsIff`, `SecondPassCompletes`). Version and content are right after
  the first pass already if config and template of copy and server agree (`RollbackSettlesIff`).
- A stale target can make the worker create the same version twice (`StaleTargetRecreatesVersionOne`);
  this happens exactly when the collector removes the history between the planning and the recording of
  an attempt (`NumberedOnceIff`), and the content is then the same both times. With a history limit of
  zero or less even the content differs, with current caches (`NonPositiveLimitReusesVersionOne`).
- An attempt that recorded its version and stopped before publishing it is retried under another version if
  its target shows an older one that still has a history (`RetryKeepsTheVersionIff`).
- A failed attempt re-arms the handler that made it through the condition that it records, and a successful
  one is skipped (`FailureRearms`, `SuccessIsSkipped`).
- The library that builds and applies merge patches does not see null members of objects inside arrays
  come or go, drops nulls inside new arrays, and compares numbers as float64 (`EmptyPatchIff`,
  `HiddenNullIsOverlooked`, `NullInNewArrayIsLost`, `NumbersLookEqualIff`). Releases stay clear of all
  three (`EncodingsAreSafe`).
- At the int32 limit a changed release gets a negative version (`PlannedWraps`).
- In the positive order a parent can overlook the error of a child, because `wg.Done` is called before
  the error is appended (`OverlooksFailureIff`, `LostError`). The comment of `Run` says that an error
  cancels all processes; the code cancels nothing, and whatever siblings could do they still can
  (`FailureCancelsNothing`).
- Rebuilding a tree from a manifest decodes every resource into one variable, so a resource without
  annotations inherits those of its predecessors (`RebuildFilesUnderNearestPath`).
- A merged listing of the cache layer drops every object of the lister that has no cached twin
  (`MergedListingIsCompleteIff`); histories recorded by the storage carry neither timestamp nor version
  and never show (`LocalRecordNeverShows`). With a label selector the cached entries cannot be listed at
  all, since they expose no metadata, and the lister's answer is returned unchanged.
- An update that only changes the API version of an object deletes the object
  (`VersionChangeDeletesTheObject`); in general a target is there afterwards exactly when every original
  that is the same object to the server has a target of its own or is kept (`TargetSurvivesIff`).
- One old history with an unreadable name makes every pass of the collector over its release fail, also
  when the release is gone (`PassSucceedsIff`, `DeletedReleaseIsCleanedUp`).
- An object that changes hands stays listed under its former owner (`ReownedObjectStaysListed`).
- A collector that has not seen the new manifest yet deletes freshly adopted objects of it at once and new
  ones after the grace period (`PassBeforePublishDeletesIff`).
- Shrinking one workload deletes pods of every other workload of the release (`OtherWorkloadsLosePods`).
- The marker of a shrink is lost on a workload that has no annotation map (`SetIsReadBackIff`), and an
  empty target list breaks the promise of the shrink, from every state (`EmptyTargetBreaksThePromise`);
  non-empty targets are exactly those that keep it (`NonEmptyTargetsAreExact`).
- A failed attempt records a condition on the release, which re-arms the retry queue; the bound of four
  attempts holds between updates only (`FailuresRearm`).

## Model

| member | source | states |
|---|---|---|
| MergePatch.PatchReachesTarget | vendor/github.com/evanphx/json-patch/merge.go:184-227 | Applying the created patch to the document it was computed from yields the modified document, if that holds no null at any depth, the original none inside arrays, and both no number beyond 2^53 |
| MergePatch.PatchReachesTargetIff | vendor/github.com/evanphx/json-patch/merge.go:329-383 | For all decoded documents: the patch yields the modified document if and only if new values, and those that replace anything but an object, hold no null, and arrays that the builder takes as unchanged are equal |
| MergePatch.EmptyPatchIff | vendor/github.com/evanphx/json-patch/merge.go:264-383 | For all decoded documents: the created patch is the empty object if and only if the documents agree up to null members of objects inside arrays |
| MergePatch.MatchesIff | vendor/github.com/evanphx/json-patch/merge.go:264-324 | matchesValue holds of two values if and only if they are equal once null members of objects are dropped |
| MergePatch.HiddenNullIsOverlooked | vendor/github.com/evanphx/json-patch/merge.go:305-317 | Two different documents, one of them without nulls, for which the builder creates the empty patch both ways |
| MergePatch.NullInNewArrayIsLost | vendor/github.com/evanphx/json-patch/merge.go:76-90 | A null inside a new array does not arrive |
| MergePatch.NumbersLookEqualIff | vendor/github.com/evanphx/json-patch/merge.go:294-298 | Two numbers are the same to the builder if and only if they are read as one float64, as 2^53 and 2^53 + 1 are |
| MergePatch.PruneKeepsIff | vendor/github.com/evanphx/json-patch/merge.go:50-90 | pruneNulls leaves a value as it is if and only if it holds no null at any depth, arrays included |
| MergePatch.FollowsTheStandardIff | vendor/github.com/evanphx/json-patch/merge.go:10-95 | Merging follows section 2 of RFC 7396, whatever the target, for exactly the patches without nulls inside arrays |
| MergePatch.EmptyPatchMeansEqual | pkg/storage/release.go:213-219 | For documents without nulls inside arrays and numbers beyond 2^53 the created patch is the empty object if and only if they are equal, so skipping it loses nothing |
| MergePatch.PatchedMember | vendor/github.com/evanphx/json-patch/merge.go:29-48 | Applied to any third document, a patch leaves a member alone if the builder cannot tell local and target apart there, removes it if the target lacks or nulls it, and else merges what the target says into it, nested objects by their own patch |
| ReleaseDoc.EncodingsAreSafe | vendor/github.com/caicloud/clientset/pkg/apis/release/v1alpha1/types.go:19-31 | No encoded release holds a null inside an array or a number beyond 2^53, so all of the above applies to it |
| ReleaseDoc.MergeIsMergePatch | pkg/storage/release.go:202-231 | Sending the storage's difference to a server whose document may differ from the storage's copy does, field by field, what the merge of the three documents says |
| ReleaseDoc.EncodeInjective | vendor/github.com/caicloud/clientset/pkg/apis/release/v1alpha1/types.go:19-31 | Distinct release documents have distinct encodings |
| ReleaseDoc.MergeOntoSelf | pkg/storage/release.go:202-231 | From a current copy the patch installs the target itself |
| Histories.PlannedIsSameOrNew | pkg/release/apply.go:57-92 | The chosen version either has a history with exactly the content to be applied, or is above every existing one, short of the int32 limit |
| Histories.UnchangedIsKept | pkg/release/apply.go:63-84 | A release whose recorded version has a history keeps that version if and only if the content is the same; if the latest history has the content, the latest is chosen if and only if the recorded version has none or is the latest |
| Histories.NewVersionIff | pkg/release/apply.go:61-90 | A version without history is chosen, the next number then, if and only if there is no history, or the recorded one, or in its absence the latest one, has another content |
| Histories.PlannedWraps | pkg/release/apply.go:85-88 | A changed release gets a version above the latest if and only if the latest is not the int32 maximum; there it gets a negative one |
| Histories.Latest | pkg/release/apply.go:61-66 | The latest history is one that exists and has the biggest version |
| ReleaseProtocol.StepKeepsInv | pkg/release/apply.go:16-143 | Every step of user, worker, collector and foreign owners keeps the protocol invariant and never lowers the number of versions handed out |
| ReleaseProtocol.HistoryContentNeverChanges | pkg/storage/release.go:176-199 | Over every run with limit at least 1, stale caches and failures included, any two histories under one version agree in config and template |
| ReleaseProtocol.HighestHistorySurvives | pkg/controller/gc/controller.go:402-413 | Over every such run no step removes or rewrites the highest history, and no version ever recorded is above it |
| ReleaseProtocol.LedgerOnlyGrows | pkg/storage/release.go:182-187 | The content under which a version was first recorded stays its content for the rest of the run |
| ReleaseProtocol.CollectKeepsInv | pkg/controller/gc/controller.go:462-465 | What a collector removes, by any version of the document it may have seen, is below the highest history |
| FreshRuns.FreshStep | pkg/release/apply.go:51-92 | In fresh runs every step also keeps versions consecutive and the history of an attempt in progress out of the collector's reach, also for targets edited or flushed since their delivery and for retries |
| FreshRuns.VersionsAreNumberedOnce | pkg/release/apply.go:57-92 | In every fresh run the k-th history ever created has version k: no number is given a history twice |
| FreshRuns.PublishedVersionHasItsHistory | pkg/storage/release.go:192-198 | In fresh runs, after every status patch of an apply, a history stands under the published version and holds the config and template of the applied release |
| FreshRuns.PublishReachesServerIff | pkg/storage/release.go:202-231 | In any state the published version reaches the server if and only if the copy did not already show it or the server has it; whichever history stands under it has the applied content |
| ReusedVersions.MissingIff | pkg/controller/gc/controller.go:402-413 | In every run, the history of the known version an attempt carries is missing if and only if a collector removed it while the attempt stood where it stands |
| ReusedVersions.NumberedOnceIff | pkg/storage/release.go:181-187 | In every run, no number is given a history twice if and only if no attempt records a version that the collector took away after its planning |
| ReusedVersions.PublishedHistoryStandsIff | pkg/storage/release.go:192-198 | In every run, what a status patch publishes has its history, with the applied content, if and only if the collector did not take it away after the recording |
| ReusedVersions.CanBeCreatedAgainIff | pkg/release/apply.go:72-84 | An attempt on an existing version can be made to create its history again, by whatever others do, if and only if some document the server ever held has a manifest and a version that puts the planned one outside the window |
| ReusedVersions.PositiveLimitsAreExact | pkg/controller/gc/controller.go:462-465 | Limits of at least 1 are exactly those under which fresh runs give no number twice |
| Retries.RetryKeepsTheVersionIff | pkg/release/apply.go:57-92 | In every run, an attempt that recorded a new version and stopped before publishing it is retried under that version and without a second history if and only if the version that the target shows has no history or is this one |
| Retries.FirstAttemptStaysVersionOne | pkg/release/apply.go:65-84 | The first attempt is retried as version 1, since its target shows version 0 |
| FreshRuns.RollbackRestoresTheRecord | pkg/storage/release.go:258-267 | A rollback to what was recorded for a release brings its description, template and config back, keeps the suspension and clears the request |
| FreshRuns.RollbackSettlesIff | pkg/storage/release.go:258-267 | A rollback pass to a version that is there leaves the release at that version with the history's content if and only if every field of config and template is the history's on the server already or differs from it in the copy, and no other version is requested meanwhile; a copy that merely does not know the request is enough |
| FreshRuns.SettledStays | pkg/release/apply.go:72-84 | From there every further fresh step that asks for nothing else keeps the version and its history and creates none; retries of the rollback with the target that started it are among these steps |
| FreshRuns.RolledBackForGood | pkg/release/apply.go:51-92 | In every fresh run, after a rollback pass from a copy current or not, every later state has that version, its history and its content and no new history, for as long as nothing else is asked for |
| FreshRuns.FirstPassClearsIff | pkg/storage/release.go:262-262 | The first rollback pass clears the request on the server if and only if the storage's copy had a request |
| FreshRuns.SecondPassCompletes | pkg/storage/release.go:233-268 | In every run, after one non-empty rollback patch and with no other writer since, any later rollback pass, whatever lies between, leaves the server with the history's description, template and config and the request cleared |
| FreshRuns.CopyStaysCurrent | pkg/storage/release.go:202-231 | In every run without another writer a current copy stays current |
| StaleRuns.NonPositiveLimitReusesVersionOne | pkg/controller/gc/controller.go:462-465 | For every limit of zero or less there is a fresh run that gives version 1 a second history with another content |
| StaleRuns.StaleTargetRecreatesVersionOne | pkg/release/handler.go:54-54 | With limit 1 a stale target gives version 1 a second history |
| HistoryNames.NamesAreInjective | pkg/storage/release.go:383-385 | Two history names agree only for the same release and the same version |
| HistoryNames.AtoiOfItoa | pkg/controller/gc/controller.go:455-458 | Parsing a printed version gives the version |
| HistoryNames.RetentionIsAWindow | pkg/controller/gc/controller.go:448-466 | On generated names retention is exactly version plus limit above current, and a non-positive version is an error |
| HistoryNames.AtMostLimitRetained | pkg/controller/gc/controller.go:442-447 | Of the histories up to the current version at most `limit` are retained |
| ReleaseStorage.SortSorts | pkg/storage/release.go:355-357 | Sorting orders by version, biggest first, and keeps the elements |
| ReleaseStorage.Storage.History | pkg/storage/release.go:294-317 | A version is found if and only if its object exists and belongs to this very release |
| ReleaseStorage.Storage.KeepOwned | pkg/storage/release.go:347-354 | The in-place filter keeps exactly the owned histories, in their order |
| ReleaseStorage.Storage.Histories | pkg/storage/release.go:320-359 | The listing is all owned histories and nothing else, highest version first |
| ReleaseStorage.Storage.Patch | pkg/storage/release.go:202-231 | The server ends with the three-way merge and the copy with the server's answer; nothing is sent for an empty patch |
| ReleaseStorage.Storage.FlushConditions | pkg/storage/release.go:376-380 | Replaces the conditions by the protocol's flush step, or fails without effect |
| ReleaseStorage.Storage.Update | pkg/storage/release.go:176-199 | Takes the steps record and publish, succeeds if and only if nothing it needs fails, and otherwise stops with the error and the steps that the failing call leaves |
| ReleaseStorage.Storage.Rollback | pkg/storage/release.go:234-268 | Succeeds if and only if the lookup works, rendering works and the patch is empty or goes through; then the protocol has read and restored the version with the manifest rendered from its history, or for a missing version only left a condition; otherwise it stops with the error and steps of the failing call |
| ReleaseApply.NextVersion | pkg/release/apply.go:57-90 | The scan over the listed histories chooses the version that the protocol plans, the latest one for an unchanged latest content if and only if the recorded version has no history or is the latest |
| ReleaseApply.RecordError | pkg/release/util.go:20-27 | Records the failure condition and returns the error, if and only if the patch is empty or goes through; else reports that this failed; histories stay as they are |
| ReleaseApply.ApplySpec | pkg/release/apply.go:31-142 | An attempt ends where possible protocol steps lead, succeeds if and only if nothing it needs fails, and then planned, recorded, published and flushed in this order; on every failure its steps and its error are those of the place it failed at, with the error recorded |
| ReleaseApply.PublishApplied | pkg/release/apply.go:126-142 | After the manifest was applied: succeeds if and only if recording, publishing and marking available all work, in this order |
| ReleaseApply.ApplyRollback | pkg/release/apply.go:22-30 | Succeeds if and only if rollback, apply and final condition do; then the version was read and restored, or the missing one noted, the manifest then on record was applied and the release marked available |
| ReleaseApply.ApplyRelease | pkg/release/apply.go:16-143 | The dispatch between the two, with the equivalence for success and the outcome of each branch, failures included |
| ReleaseApply.MissingRollbackLooksAvailable | pkg/storage/release.go:239-242 | Whatever the storage's copy was, afterwards the release is marked available and everything else, the request included, is as before |
| Rendering.RollbackRendersTheHistory | pkg/storage/release.go:243-256 | With a renderer that knows one set of options a rollback succeeds if and only if these are the release's name and suspension and number, template and config of the history |
| Rendering.RollbackPublishesItsOwnConfig | pkg/storage/release.go:243-267 | From a current copy the published manifest of a rollback is rendered from the config and the template that the document has afterwards, which are the history's |
| Rendering.RollbackIsAReapply | pkg/storage/release.go:234-268 | From a current copy a rollback publishes version and manifest that an attempt on the rolled-back document would, for every renderer |
| Rendering.RollbackRerendersTheRecord | pkg/storage/release.go:243-256 | A rollback to a history that an attempt recorded restores the very manifest recorded, as long as name and suspension are the same, for every renderer |
| Rendering.AttemptRendersItsTarget | pkg/release/apply.go:94-116 | With a renderer that knows one set of options an attempt succeeds if and only if these are name, template, config and suspension of its target and the planned version, and no foreign object is in the way of the history |
| Rendering.AttemptPublishesItsOwnConfig | pkg/release/apply.go:31-142 | From a current copy a successful attempt publishes what was rendered from its target's config and template, under a version whose history holds them and, if new, the same manifest, and ends available |
| Rearming.FailureIsRecorded | pkg/release/util.go:20-27 | An attempt that fails before it published leaves the release on the server as it was, but for one failure condition, if that can be written |
| Rearming.FailedRollbackIsRecorded | pkg/release/apply.go:22-30 | The same for a rollback that fails, or that is rolled back and cannot be applied |
| Rearming.RollbackEndsAvailable | pkg/release/apply.go:22-30 | A rollback attempt that succeeds from a current copy ends with the history's description, template and config, the request cleared, at its version, and available |
| Rearming.FailureRearms | pkg/release/handler.go:76-84 | The update that a recorded failure causes is taken up by the handler, whatever its target |
| Rearming.SuccessIsSkipped | pkg/release/handler.go:76-84 | The update that a success causes from a current copy is skipped by the handler of that target |
| Cluster.RequestsKeepValid | pkg/kube/client.go:158-198 | Requests keep objects filed under their keys with unique uids |
| Cluster.ApiCluster.DeleteExact | pkg/controller/gc/controller.go:421-428 | A deletion with a UID precondition removes that object or nothing |
| Cluster.ApiCluster.ListPods | pkg/kube/specified_ip.go:94-107 | Lists exactly the pods with the release label, each once |
| Client.Own | pkg/kube/client.go:545-571 | An object is owned if and only if it has every reference asked for; anything is when none are asked for |
| Client.ByRankFacts | pkg/kube/sorter.go:77-90 | Sorting by kind yields a permutation ordered by rank |
| Client.DeletePodsNotInList | pkg/kube/specified_ip.go:91-124 | Deletes exactly the release's pods that have an address outside the list; its outcome is that of the last deletion |
| Client.ApplyIPSpecDecreasing | pkg/kube/specified_ip.go:52-88 | Writes list and marker to the stored object and then deletes the stray pods; a bad list or a missing label stops it where the code stops |
| Client.ApplyOne | pkg/kube/client.go:135-218 | One object is created, adopted, re-created for a changed job, shrunk first where judged so, or refused as a conflict |
| Client.Apply | pkg/kube/client.go:130-220 | Applies the objects in rank order until one fails |
| ApplyOutcome.ApplySucceedsIff | pkg/kube/client.go:130-220 | For distinct keys an apply succeeds if and only if, in the namespace it starts in, no object of a kind that is not exempt lacks a wanted reference and every present workload's lists can be read where they are read and have a release label where pods must go |
| ApplyOutcome.ForeignIsUntouched | pkg/kube/client.go:172-215 | In every apply, successful or not, an object of another owner is as it was, sweepable pods aside, and so is what the manifest does not name |
| ApplyOutcome.ApplyStopsAtTheFirst | pkg/kube/client.go:134-220 | A failing apply has put everything before the first object that is refused into effect and nothing after it |
| ApplyOutcome.InstallOrderPutsPodsFirst | pkg/kube/sorter.go:15-38 | In install order pods come before the workloads whose shrinking could delete them |
| ApplyOutcome.ShrinksIff | pkg/kube/specified_ip.go:15-47 | A workload is judged to shrink if and only if it is marked, or the lists differ, the new one can be read and a granted address is missing from it; the judgement fails if and only if it is unmarked and a differing new list cannot be read |
| ApplyOutcome.GrowthDeletesNothing | pkg/kube/specified_ip.go:37-46 | An unmarked workload whose granted addresses are all in the new list is applied without a marker of the client's and with every other object untouched |
| ApplyOutcome.PodGoesIff | pkg/kube/client.go:183-201 | Applying an unmarked workload deletes a pod if and only if the new list takes a granted address away, there is a release label, and the pod has that label and an address outside the list |
| ApplyOutcome.MarkedIff | pkg/kube/specified_ip.go:59-81 | Without a release label such an apply leaves the marker behind if and only if the new list takes a granted address away |
| ClientUpdate.IndexByKey | pkg/kube/client.go:369-372 | The index holds exactly the originals under their keys |
| ClientUpdate.Classify | pkg/kube/client.go:365-388 | Each original lands in exactly one of update and delete, each target in exactly one of create and update, and pairs share a key |
| ClientUpdate.Create | pkg/kube/client.go:311-353 | Creates what is missing, takes over what is owned, and stops at a conflict |
| ClientUpdate.Patch | pkg/kube/client.go:422-481 | Patches each pair's object in turn, stopping at a missing or foreign one |
| ClientUpdate.Delete | pkg/kube/client.go:484-531 | Deletes exactly the present and owned objects that the filter, any predicate, does not keep |
| ClientUpdate.Carry | pkg/kube/client.go:389-412 | Creates, patches and deletes in this order until one fails |
| ClientUpdate.Update | pkg/kube/client.go:356-413 | Classifies and then carries the plan out |
| ClientUpdate.UpdateReplaces | pkg/kube/client.go:355-413 | On success, for any filter: a target is there if and only if every original with its server key has a target of its own or is kept; of all other objects exactly the owned originals that are not kept are gone, and the rest is untouched |
| ClientUpdate.UpdateSucceedsIff | pkg/kube/client.go:355-413 | An update succeeds if and only if no target's key is taken by an object that lacks a wanted reference and every free one belongs to some target without an original of its own |
| ClientUpdate.UpdateKeepsForeign | pkg/kube/client.go:355-413 | An update, successful or not, leaves every object of another owner as it is |
| ClientUpdate.TargetSurvivesIff | pkg/kube/client.go:389-395 | A target is not swept away by the deletions if and only if every original that is the same object to the server is paired or kept by the filter |
| ClientUpdate.UntargetedGoesIff | pkg/kube/client.go:356-413 | An object whose server key no target has is gone if and only if it is owned and an original that the filter does not keep, and is unchanged otherwise |
| ClientUpdate.UpdateWrites | pkg/kube/client.go:374-401 | On success, for all lists, the object of a surviving target is what was stored there or first created there, patched by every pair with its server key in turn |
| ClientUpdate.LonePairWrites | pkg/kube/client.go:391-395 | The object of a pair whose server key no other target has is the stored one patched from original to target, or untouched for equal resources |
| ClientUpdate.PatchedAllEffect | pkg/kube/client.go:424-479 | Patches keep keys and owners and whatever they are not for |
| ClientUpdate.VersionChangeDeletesTheObject | pkg/kube/client.go:365-368 | For any present, owned object, an update whose target only changes its API version succeeds, and deletes it if and only if the filter does not keep it |
| OwnerIndex.ReleaseResources.Set | pkg/controller/gc/controller.go:101-143 | Files the object under its sole owning release, replacing what was there under its uid; leaves the index alone otherwise |
| OwnerIndex.ReleaseResources.Remove | pkg/controller/gc/controller.go:145-169 | Removes the object from its owner's entry, and the entry with its last resource |
| OwnerIndex.ReleaseResources.Resources | pkg/controller/gc/controller.go:85-98 | Lists exactly what the entry holds, each once |
| OwnerIndex.SetKeepsWellFormed | pkg/controller/gc/controller.go:125-142 | No entry is empty or misfiled after a set |
| OwnerIndex.SolelyOwnedIff | pkg/controller/gc/controller.go:109-121 | An object is solely a release's if and only if its one reference is the one that client and storage write for that release |
| OwnerIndex.RemoveHeld | pkg/controller/gc/controller.go:145-169 | A removal takes away exactly the one uid under the one release, also when the entry goes |
| OwnerIndex.IndexIsTheLastWord | pkg/controller/gc/controller.go:237-261 | After any events the index holds under a release exactly the objects whose last event concerning that release was a set, as that event showed them, and no entry is empty |
| OwnerIndex.SteadyIndexIff | pkg/controller/gc/controller.go:101-169 | When owners never change, an object is held under a release if and only if its last event was a set, the release is its sole owner and its kind is not ignored |
| OwnerIndex.ReownedObjectStaysListed | pkg/controller/gc/controller.go:246-248 | When an object changes hands it is held under both owners |
| Collector.GarbageCollector.DesiredKeys | pkg/controller/gc/controller.go:383-386 | The wanted keys are those of the manifest |
| Collector.GarbageCollector.Consider | pkg/controller/gc/controller.go:392-436 | One resource: the turn fails if and only if the resource is an old history with an unreadable name, or doomed while its key names another object by now; else it is kept when young, retained or wanted, and deleted by uid and forgotten otherwise |
| Collector.GarbageCollector.Sweep | pkg/controller/gc/controller.go:390-440 | The loop, in the order in which it meets the resources: it ends early if and only if a resource stops it, at the first that does, and has deleted and forgotten exactly the doomed ones before that |
| Collector.GarbageCollector.Collect | pkg/controller/gc/controller.go:356-440 | A live release with an empty manifest is ignored and one that cannot be decoded is an error without effect; otherwise the pass is the loop over all held resources, which succeeds if and only if none stops it |
| Collector.PassSucceedsIff | pkg/controller/gc/controller.go:390-440 | When the server would refuse no doomed resource, a pass succeeds if and only if the names of all old histories can be read, in whatever order, and then exactly the doomed keys are gone |
| Collector.PassOfDistinctKeysIff | pkg/controller/gc/controller.go:421-433 | When the held resources have distinct keys, a pass succeeds if and only if none of them is unreadable, or doomed and replaced on the server |
| Collector.VerdictIsRetention | pkg/controller/gc/controller.go:403-412 | On a generated history name the collector's verdict is the retention test of the protocol |
| Convergence.AppliedAllEffect | pkg/kube/client.go:129-220 | A successful apply puts every object into effect and leaves every key outside the manifest alone, pods that a shrinking workload can sweep aside |
| Convergence.AppliedContent | pkg/kube/client.go:156-209 | After a successful apply every object, sweepable pods aside, has the content, age, labels, annotations and owners that creation, adoption or the comparison of jobs asks for, given what was there before, and an adopted one keeps its identity |
| Convergence.AppliedIsSolelyOwned | pkg/kube/client.go:141-146 | What an apply writes for a release, of a kind that is not exempt and given without owners, is solely the release's, unchanged jobs aside |
| Convergence.DeliveredIsInSync | pkg/controller/gc/controller.go:237-261 | Once all events are delivered, and if objects kept their owners, the index holds exactly what the server attributes to the release |
| Convergence.ApplyThenCollectConverges | pkg/controller/gc/controller.go:356-440 | After a successful apply, a pass succeeds if and only if the names of all old histories can be read; then every manifest object is in effect with the wanted content, every other old, solely owned, non-ignored, non-history object is gone, histories in the window stay, and unrelated objects outside the manifest are unchanged |
| Convergence.PassBeforePublishDeletesIff | pkg/controller/gc/controller.go:392-421 | A successful pass that goes by another manifest than the one just applied deletes an object of the new one if and only if its own manifest lacks it, the release solely owns it and it is past the grace period: at once if it was there before, some seconds after the apply if it is new or a re-created job |
| Convergence.DeletedReleaseIsCleanedUp | pkg/controller/gc/controller.go:355-440 | Once the release is gone, a pass succeeds if and only if the names of all its old histories can be read, and then an object is removed if and only if it was solely the release's, of no ignored kind and old enough |
| Convergence.HistoryGoesIff | pkg/controller/gc/controller.go:402-428 | A successful pass for a live release removes an old history of its own under the name for n if and only if n plus the limit is at most the current version |
| Convergence.AtMostLimitLeft | pkg/controller/gc/controller.go:442-466 | At most `limit` old histories up to the current version are left, however many there were |
| SpecifiedIPs.SetIsReadBackIff | pkg/kube/specified_ip_util.go:66-79 | A written annotation is read back if and only if the object had an annotation map; the reported flag is right then; other keys stay |
| SpecifiedIPs.MarkerIsWritten | pkg/kube/specified_ip.go:59-68 | With an annotation map, list and marker are both there after the intermediate write |
| SpecifiedIPs.ValidateSets | pkg/kube/specified_ip_util.go:124-161 | Accepts if and only if networks and addresses are set, network and subnet pairs are unique, addresses are unique across all sets and each is one |
| SpecifiedIPs.ValidateKeys | pkg/kube/specified_ip_util.go:131-143 | The first loop decides exactly the part about sets |
| SpecifiedIPs.ValidateAddresses | pkg/kube/specified_ip_util.go:148-158 | The inner loop decides exactly whether a set's addresses are valid and new |
| SpecifiedIPs.ParseSets | pkg/kube/specified_ip_util.go:23-38 | Empty text is no sets; otherwise decoding and validation must both succeed |
| SpecifiedIPs.AddressMap | pkg/kube/specified_ip_util.go:96-108 | The address map holds exactly the addresses of all sets |
| SpecifiedIPs.Covered | pkg/kube/specified_ip.go:39-46 | The nested loop finds out whether every existing address is still granted |
| SpecifiedIPs.JudgeDecreasing | pkg/kube/specified_ip.go:15-47 | A shrink is needed if the marker is there, or if the texts differ, the target parses and an existing address is not granted any more |
| IpShrink.StepKeepsInv | pkg/kube/specified_ip.go:52-124 | Every step of client, kubelet and users keeps what the promise needs, across stops and changed targets, for all targets but accepted empty ones |
| IpShrink.UnmarkedListsAreHonest | pkg/kube/specified_ip.go:49-51 | In every run that starts inside a non-empty list and has no accepted empty target, without the marker every pod with an address is inside the list |
| IpShrink.CompletedShrinkRepairs | pkg/kube/specified_ip.go:52-88 | A shrinking attempt with a non-empty target that is not stopped ends, from any state whatever, with exactly the wanted list, marked only if the wanted object is, every addressed pod inside the list, and nothing left to shrink if unmarked |
| IpShrink.EmptyTargetBreaksThePromise | pkg/kube/specified_ip.go:33-36 | From every idle state with a non-empty list every accepted empty target has a run that ends with a pod outside the unmarked list of any later target without its address |
| IpShrink.NonEmptyTargetsAreExact | pkg/kube/specified_ip.go:33-36 | For every idle consistent state with a non-empty list: all runs that begin with a target, have no empty one later and end with a list in force keep the promise if and only if that target is not an accepted empty one |
| ShrinkRuns.ApplyIsARun | pkg/kube/client.go:183-201 | What the client does when it successfully applies an existing workload is a run of the shrinking protocol from its start to its finish |
| ShrinkRuns.FailedApplyIsARun | pkg/kube/client.go:173-218 | An apply that fails is a run as well: none, or one that stops before the mark for an unreadable list and after it for a missing label |
| ShrinkRuns.SweepIsByLabelAlone | pkg/kube/specified_ip.go:91-124 | A shrink deletes a pod if and only if it has the release label and an address outside the list, whichever workload it belongs to |
| ShrinkRuns.OtherWorkloadsLosePods | pkg/kube/specified_ip.go:75-82 | Every other workload of the release keeps its annotations and loses exactly the addressed pods outside the list of the one that shrinks |
| Manifest.Split | pkg/render/util.go:14-14 | Splitting at the leftmost delimiters leaves pieces without delimiter that joined give the text back |
| Manifest.CompactInPlace | pkg/render/util.go:15-22 | The loop that overwrites the slice it reads keeps exactly the trimmed non-blank pieces, in order |
| Manifest.SplitManifest | pkg/render/util.go:13-23 | Returns the trimmed non-blank pieces of the manifest |
| Manifest.ResourcesAreSound | pkg/render/util.go:13-23 | Resources of any manifest are non-empty, trimmed and free of the delimiter |
| Manifest.FirstDelimiter | pkg/render/util.go:8-15 | In a joined text the first delimiter is after the first resource, unless that ends in the delimiter's first four characters |
| Manifest.SplitUndoesMergeIff | pkg/render/util.go:7-23 | Splitting undoes merging if and only if all resources are trimmed, non-empty, free of the delimiter and, but for the last, do not end in a newline and three dashes |
| Paths.JoinUndoesSplit | pkg/render/tree.go:37-37 | Joining the segments of a path gives the path |
| Paths.SplitUndoesJoin | pkg/render/tree.go:123-131 | Splitting the joined segments gives the segments, so that node paths identify nodes |
| Paths.LogicPathForFile | pkg/render/tree.go:91-113 | The logic path is the segments at even positions before the last templates directory, or an error |
| Paths.LogicPathIff | pkg/render/tree.go:91-113 | A file has a logic path if and only if there is something before its last templates directory, of an odd number of segments, and it is every other one of them |
| Paths.LogicPathOfChartFile | pkg/render/tree.go:84-90 | A template file of a chart nested at any depth leads to the names of the charts |
| ResourceTree.Node.constructor | pkg/render/tree.go:123-131 | A new node has the last segment as its name, no resources and no children |
| ResourceTree.Tree.Descend | pkg/render/tree.go:142-150 | One turn of the loop goes to the child, making it if it is missing |
| ResourceTree.Tree.Reach | pkg/render/tree.go:141-150 | The loop makes exactly the missing nodes on the way and changes no resources |
| ResourceTree.Tree.Add | pkg/render/tree.go:134-153 | Appends to the node of the path and to no other; an empty path or another root is an error without effect |
| ResourceTree.Tree.Find | pkg/render/tree.go:156-173 | Finds the node of the path if and only if there is one; the root's name is not looked at |
| ResourceTree.Tree.ResourcesOf | pkg/render/tree.go:295-305 | Returns exactly what the tree holds at the target, or an error |
| ResourceTree.Tree.Visit | pkg/render/tree.go:179-189 | One turn of the walk takes the head of the queue and appends its children |
| ResourceTree.Tree.Resources | pkg/render/tree.go:279-291 | The walk ends and returns the resources of a breadth-first order that visits every node once |
| TreeContents.TreeHoldsWhatWasAdded | pkg/render/tree.go:133-153 | After any adds the nodes are the root and what lies on the way to an add, and each holds exactly what was added there, in order |
| TreeContents.FrontierMoves | pkg/render/tree.go:179-189 | A turn of the walk keeps visited and waiting nodes distinct, ordered by depth and complete, and there are nodes left only finitely often |
| TreeContents.WalkEnds | pkg/render/tree.go:177-191 | When the queue is empty every node has been visited exactly once |
| TreeContents.WalkFindsEverything | pkg/render/tree.go:278-291 | Any walk over every node returns a permutation of everything that was added |
| Carrier.AddTo | pkg/render/tree.go:41-48 | The first path makes the root; a path with another root is refused |
| Carrier.CarrierForResources | pkg/render/tree.go:21-53 | Builds the tree that the loop's decoding says, or reports its first error |
| Carrier.RebuildFilesUnderNearestPath | pkg/render/tree.go:22-45 | The rebuild succeeds if and only if every resource decodes without nulled annotations, the first names a path, and all named paths are non-empty with one root; each resource then goes under the path of the nearest one up to it that names one |
| Carrier.PositionsAreSlashFree | pkg/render/tree.go:36-45 | The nodes of a rebuilt tree lie at paths made of segments |
| Carrier.NamedResourcesAreFiledOnce | pkg/render/tree.go:21-53 | Resources that all name their paths below one root are each found exactly once, under their own path, in manifest order |
| Carrier.ManifestRoundTrip | pkg/render/tree.go:14-18 | Walking a rendered tree, merging, splitting and rebuilding gives every path its resources back in order |
| Carrier.TreeCarrierFor | pkg/render/tree.go:63-82 | Succeeds if and only if all files lead to logic paths with one root, and then holds every file's resources once |
| Executor.StepKeepsInv | pkg/render/tree.go:193-253 | Every step of every goroutine keeps the executor invariant in both orders |
| Executor.PositiveOrder | pkg/render/tree.go:227-239 | In every schedule a handler runs only after the executors of all nodes below have returned |
| Executor.ReversedOrder | pkg/render/tree.go:241-253 | In every schedule a handler runs only after all handlers above returned nil with the context live |
| Executor.FailureHasCause | pkg/render/tree.go:203-225 | An executor fails only if its handler or one below failed |
| Executor.NoFalseAlarm | pkg/render/tree.go:264-276 | Run returns an error only if some handler failed |
| Executor.ErrorFreeRunHandlesEachOnce | pkg/render/tree.go:264-276 | A finished run without failing handler returned nil and handled every node exactly once |
| Executor.ErrorFreeRunEndsEachOnce | pkg/render/tree.go:264-276 | In such a run every handler also returned, once |
| Executor.FailureCancelsNothing | pkg/render/tree.go:256-276 | When a handler fails, every step that another goroutine could take it still can, and the context stays live |
| Executor.StepKeepsPromptInv | pkg/render/tree.go:213-223 | If errors are appended before parents read, every parent knows whether a child failed |
| Executor.PromptPositiveOrder | pkg/render/tree.go:227-239 | In such schedules a node is handled only if every node below finished with nil |
| Executor.PromptRunReportsEveryFailure | pkg/render/tree.go:264-276 | In such schedules Run reports an error if and only if some handler failed |
| Executor.OverlooksFailureIff | pkg/render/tree.go:213-230 | A parent overlooks its failed children if and only if each has called wg.Done and not yet appended its error |
| Executor.LostError | pkg/render/tree.go:213-230 | A run in which a child fails, its parent is handled and Run returns nil |
| Executor.NoDeadlock | pkg/render/tree.go:203-253 | Until Run is over some goroutine can take a step, in every schedule |
| Executor.RunsAreBounded | pkg/render/tree.go:203-253 | No schedule takes more than five steps for each node |
| StatusCounters.Detector.Handle | pkg/controller/status/controller.go:306-373 | Leaves the detail of the node with the counts of its resources, or none after an error; pods are counted up to the error |
| StatusCounters.CountersAreCounts | pkg/controller/status/controller.go:352-369 | The counters of a node are the numbers of its resources by kind and phase and add up to all of them; there are none if and only if some resource cannot be judged |
| StatusCounters.FailureShows | pkg/controller/status/controller.go:363-366 | Reason and message of a node are those of its last failed resource |
| StatusCounters.PodsAddUp | pkg/controller/status/controller.go:343-350 | Pod statistics grow, phase by phase and outdated and updated pods apart, by what the resources report |
| StatusCounters.DetailsTotalTheNodes | pkg/controller/status/controller.go:301-372 | One detail for each node handled, and their counters total the resources of the nodes |
| StatusCounters.WalkCountsManifest | pkg/controller/status/controller.go:295-372 | Handling every node of the rebuilt tree once, in any order, gives each node the counters of the resources with its path, and all counters together total the resources of the manifest |
| StatusCounters.DetectCountsTheManifest | pkg/controller/status/controller.go:290-379 | Whatever the schedule of the executor, once it has returned for a manifest whose resources name their paths and can be judged, the map that its handlers wrote on the way holds these counts |
| StatusCounters.SharedIsDetails | pkg/controller/status/controller.go:290-373 | The map carried through the steps of the executor is what the handlers leave that have returned, in the order of their returns |
| CacheLayer.Layer.Add | pkg/store/store.go:203-217 | A record replaces what was cached under the key and expires after the time to live |
| CacheLayer.Layer.SelectObject | pkg/store/store.go:310-336 | Chooses the unexpired cached object if it is strictly newer in both creation time and version, else the lister's; drops the unexpired loser and nothing else |
| CacheLayer.Layer.Get | pkg/store/store.go:293-307 | A read returns the selected object and changes the cache by at most the dropped record |
| CacheLayer.Layer.MergeListed | pkg/store/store.go:269-282 | The loop that overwrites the listing in place keeps exactly what reads of the listed cached keys find |
| CacheLayer.Layer.MergeRest | pkg/store/store.go:284-288 | The second loop adds exactly what reads of the unlisted cached keys find |
| CacheLayer.Layer.List | pkg/store/store.go:251-290 | With a non-empty cache and an all-matching selector the listing is exactly one object for each cached key on which a read finds something, the same one, despite evictions in between |
| CacheLayer.RecordIsReadBack | pkg/store/store.go:225-238 | In every run a record with timestamp and positive version is read back, or hides the key if it is a deletion, until it expires, is overwritten, or the lister shows something not older in one respect |
| CacheLayer.EvictedKeyFollowsLister | pkg/store/store.go:298-301 | In every run a key that is not cached follows the lister until the next write |
| CacheLayer.ExpiredRecordIsDead | pkg/store/store.go:315-317 | In every run an expired record never shows again |
| CacheLayer.RecordExpires | pkg/store/store.go:141-143 | In every run a record that is not overwritten never shows later than the time to live after it was written |
| CacheLayer.OvertakenRecordIsGone | pkg/store/store.go:327-331 | In every run a record that was read or listed while the lister's copy was not older in one respect, of whatever incarnation, never shows again, also after that copy has gone |
| CacheLayer.LocalRecordNeverShows | pkg/storage/release.go:183-190 | A record without timestamp or version, such as a history the storage built, never shows |
| CacheLayer.GetIsListerOrNewer | pkg/store/store.go:293-336 | A read returns the lister's view, or what an unexpired record says that is strictly newer in both respects, and always the latter if there is one |
| CacheLayer.SameIncarnationYields | pkg/store/store.go:318-336 | A record of the incarnation that the lister has, update or deletion, yields to the lister's copy and is dropped |
| CacheLayer.MergedListingIsCompleteIff | pkg/store/store.go:269-290 | The merged listing shows everything that reads show if and only if every listed object has a cached twin |
| ReleaseManager.Handler.Enqueue | pkg/release/release.go:136-150 | Queues the object and starts the handler once; a cancelled handler refuses |
| ReleaseManager.Handler.Stop | pkg/release/release.go:154-161 | Cancels a started handler |
| ReleaseManager.Manager.Run | pkg/release/release.go:57-66 | Sets the manager running and changes no handler |
| ReleaseManager.Manager.Trigger | pkg/release/release.go:70-85 | Sends the object to the release's one live handler, starting one if there is none; all other handlers are unchanged |
| ReleaseManager.Manager.Delete | pkg/release/release.go:88-103 | Cancels the release's handler and forgets it; an error if there is none or the manager does not run |
| ReleaseManager.Manager.OneHandlerPerKey | pkg/release/release.go:70-103 | Of all handlers ever made for a release at most one is not cancelled |
| ReleaseManager.KeyIsInjective | pkg/release/release.go:106-113 | Keys of releases in slash-free namespaces are distinct |
| ReleaseManager.ReleasesAreIndependent | pkg/release/release.go:68-103 | Over every event sequence, what a release's live handler was sent depends on the events of that release alone |
| ReleaseManager.HandlerWasSentWhatWasTriggered | pkg/release/release.go:70-103 | While the manager runs, a release's live handler has been sent exactly what was triggered since there was none, in order, up to its deletion |
| ReleaseManager.NoHandlerAfterDeletion | pkg/release/release.go:88-103 | After a deletion there is no live handler, unless the manager does not run |
| ReleaseManager.NothingBeforeRunning | pkg/release/release.go:70-75 | Nothing is sent to anybody before the manager runs |
| RetryLoop.InvHolds | pkg/release/handler.go:45-87 | Over every run the target has the input of the last update received, and is that update itself if it asks for a rollback or shows a failure |
| RetryLoop.UpdateIsTakenUpUnlessSettled | pkg/release/handler.go:76-84 | An update that asks for no rollback, has the target's input and a first condition other than a failure leaves the handler as it is; every other one becomes the target and is queued with no failures counted |
| RetryLoop.QuietMeansSettled | pkg/release/handler.go:46-87 | Whenever nothing is pending, the last update has had its attempt, which succeeded or used up the retries |
| RetryLoop.RetriesEnd | pkg/release/handler.go:54-67 | Between updates the loop comes to rest, within the bounds given by pending items and unused retries |
| RetryLoop.AtMostFourAttempts | pkg/release/handler.go:55-67 | An update that finds the queue quiet gets four attempts at most before the next one, and none if it is skipped |
| RetryLoop.Retry | pkg/release/handler.go:47-68 | On a fresh queue the attempts are those up to the first success, or four |
| RetryLoop.FailuresRearm | pkg/release/handler.go:76-84 | For every number there is a run in which a release that keeps failing is tried that often |

## Left out

- Rendering, YAML and JSON decoding, IP parsing, job equality, appliers and strategic merge patches are
  functions that the theorems hold for whatever they are; rendering may fail.
- API discovery, REST clients, informer start-up, resource definitions, health checks, flags, logging
  and the command line tool are not modelled.
- The lint walk, the `Key`/`ParseKey` pair and the clearing of old details in the status patch would only
  add easy members.
- `Delete` and `AddCondition` of the storage and the delete branches of the handler: one request each.
- Transport errors appear where they matter for the protocol (`Env.faults`); in the cluster model requests
  fail only for missing keys, existing keys and wrong uids.
- The field `details` and `podStatistics` of the status and the metadata besides name and uid are not part
  of the release document; no modifier of the apply path touches them.
- A history object is keyed by its version instead of its generated name, which `NamesAreInjective` allows.
- Channel capacity and blocking in `Enqueue`, shutdown of the retry queue, and the delays of its rate
  limiter are not modelled; a delayed retry may come at any later step.
- Handlers of one tree write shared maps without a lock; `Handle` takes each body as atomic, and the data
  race between `append` and the read of the error list is one of order only.
- Resource counters are unbounded natural numbers; the source counts in int32.
- SpecifiedIPs.ParseSets: does not model the sorting of sets and addresses, because no reader depends on it.
- Client.ApplyOne: does not model metadata that appliers copy, because they are an abstract function here.
- Client.DeletePodsNotInList: does not model a pod that vanishes between listing and deletion, because a
  call is atomic here; for the last pod the source then returns an error, which is `Stop` in `IpShrink`.
- Convergence.ApplyThenCollectConverges: says nothing about manifest pods that a shrinking workload can
  sweep, and takes the collector to have seen the applied manifest (`PassBeforePublishDeletesIff` is the other
  case); that the index is in step follows from `DeliveredIsInSync` when objects keep their owners. A live
  release with an empty manifest is ignored by the collector.
- Executor.LostError: shows one schedule on the smallest tree; which steps overlook an error is exact in
  `OverlooksFailureIff`.
- CacheLayer.Layer.List: is stated for listings with unique keys and is one atomic call, because the
  source takes no lock over the whole listing.
- ResourceTree.Tree.Resources: does not model a walk that its handler stops early, because no caller does.
- MergePatch.CreatePatch: does not model fractions, numbers beyond the range of float64, for which the
  builder fails, or the digits in which Go prints a number beyond 2^53, which denote the same float64; a
  point in time is an opaque string.
- IpShrink.UnmarkedListsAreHonest: is about a release with one workload, because the sweep goes by the
  release label (`SweepIsByLabelAlone`); it judges by the workload's current annotations, because a stale
  read by the client is a separate failure of the update request.
- ReleaseProtocol.HighestHistorySurvives: excludes planning at the int32 maximum, where `PlannedWraps`
  shows what happens, and concerns one live release; its deletion is the collector's other branch.
