# Tazuna: a verified model

Tazuna reconciles a Kubernetes cluster with a declarative `tazuna.yaml`. This project models the
parts of it whose correctness is not visible from one function and proves what they are for:

- **Ordering.** Manifests are split into layers from `dependsOn`. `DependencyGraph` says what cycles,
  chains and depth are, independently of any algorithm; `DependencyOrder` and `DependsOnValidator` are
  the two Kahn loops of the program, on arrays, proved against it and against each other.
- **Applying.** `SyncModel` describes one manifest as single steps (diff entry by diff entry, then the
  save, then the tests) over a cluster, a state store and the saves an atomic run puts off.
  `SyncRunner` is the runner as methods on an object; each ends where the step model ends.
  `ApplyMeaning` and `SyncMeaning` say what applying and syncing one manifest does without those steps,
  from its objects, the saved entries and the failing calls, and `RunTrace` what a whole run does, as a
  list of such manifests. `SyncEffects`, `SyncRetry`, `SyncHistory`, `SyncLedger` and `SyncFailures` are
  about one manifest over failures and whole histories; `LayerConfluence`, `LayeredApply`, `AtomicApply`, `AtomicFailure` and
  `RunConfluence` about many manifests, in every interleaving.
- **State.** `StateKeys`, `ConfigMapCodec`, `ConfigMapStore` and `StateDiff`: identities as strings and
  back, their encoding into ConfigMap data keys, the store, and the diff against a build.
- **Caches.** `CommandClient` (shared fetches of 1Password items) and `ArtifactCache` (pulled OCI
  artifacts) as protocols of concurrent, possibly crashing participants.
- **Algorithms.** `TestPolling`, `ManifestNames` and `HelmValues`.

Operations are specified twice where they work through auxiliary functions: by those functions, for the
proofs that build on them, and directly on what goes in and comes out (names and positions in dependsOn,
the objects of a build, characters of keys and paths, the last source that says something).

Outside calls that can fail are described by an *outcome*, fixed before the run: which calls return an
error, and which of those took effect all the same. Theorems hold for every outcome, so the only thing
left open inside a run is the schedule, and they hold for every schedule. A cluster slot is what the
API server identifies a resource by (group, kind, namespace, name); a state key also has the API version.

What turned out not to hold as one might expect, each with the exact condition or a family of inputs:

- The saved state is not always true of the cluster. `SyncHistory.RecordTrueIff` says exactly when it is
  after a sync, whatever it said before, with prune or without: when for every key to be recorded the
  last diff entry on its resource writes what is recorded, or none touches it and it was there already.
  A resource moved to another API version and synced with prune is applied under its new key and then
  deleted under its old one, yet recorded (`SyncHistory.VersionBumpLosesResource`); synced without
  prune, both keys stay recorded over one resource, and a later prune sync of the very same build
  deletes it (`SyncHistory.LossIsDelayed`). In terms of keys alone:
  `SyncHistory.PruneKeepsRecordTrueIff`, `SyncHistory.PruneKeepsTrueRecordIff` and
  `SyncHistory.AddingKeepsTrueRecordIff`.
- A failed sync can leave resources in the cluster that no later sync knows of. Nothing is forgotten
  exactly when whatever a failed attempt left behind is in the build of a later one that saves
  (`SyncFailures.NothingForgottenIff`); `SyncFailures.FailedBuildStays` is the simplest family.
- Merging values is associative exactly when no scalar sits between two tables at one path, unless the
  last table repeats the first (`HelmValues.AssociativeIff`). Merging shared extra values after folding
  them on their own is folding all sources in order exactly when, path by path, a scalar that a table
  follows finds everything said before it said again (`HelmValues.SharedExtrasFoldInOrderIff`).
- A cached artifact directory can be partial. Whatever is in the cache before, requests keep every
  directory complete exactly when directories are removed in one step, which the program's removal is
  not, or no online NoCache request can name an artifact that has files (`ArtifactCache.AlwaysCompleteIff`);
  otherwise a partial directory can be served (`ArtifactCache.PartialDirectoryIsServed`).
- Two references can share a tag mapping file (`ArtifactCache.ReferenceFilesCollide`) and then the
  artifact (`ArtifactCache.CollidingReferenceHits`). What is mapped for a reference was resolved for it
  exactly when no online tag request for another one shares its file (`ArtifactCache.MappingsAreOwnIff`).
- The documentation says an atomic run that meets any error updates no state. The code keeps that for
  every error before the final saves; an error among those leaves the earlier ones saved. An aborted
  run leaves all entries alone, whatever fails, exactly when no manifest that changes its entries is
  selected together with another one whose diff has entries, or some selected diff cannot be carried
  out at all (`AtomicFailure.AllOrNothingIff`). The model follows the code.
- Negative consecutive counts are not rejected; with them the polling loop panics on its first call
  unless it passes first (`TestPolling.NegativeCounts`, part of the contract of `TestPolling.Start`).

`hide` statements only keep definitions a proof does not need away from the solver.

## Model

| member | source | states |
|---|---|---|
| `DependencyGraph.StuckHasCycle` | pkg/runner/dag.go:83-120 | if every node left waits for another one left, following those dependencies meets a node twice: there is a cycle |
| `DependencyGraph.LevelIsDepth` | pkg/runner/dag.go:81-116 | numbers that fall along every dependency, and by exactly one along some, are the lengths of the longest dependency chains |
| `DependencyGraph.LayersAreUnique` | pkg/runner/dag.go:25-33 | a graph has at most one layering by depth in declaration order, so the answer is determined |
| `DependencyGraph.NoEarlierPlacement` | pkg/runner/dag.go:25-33 | every numbering that respects the dependencies places a node no earlier than its layer |
| `DependsOnSpec.LastWins` | pkg/runner/dag.go:54-61 | the name index knows every non-empty name and answers with the last manifest of that name |
| `DependsOnSpec.BuildIndex` | pkg/runner/dag.go:56-61 | the loop builds that index |
| `DependsOnSpec.EdgesAreNames` | pkg/runner/dag.go:66-79 | a manifest has an edge to another as often as entries of its dependsOn are the non-empty name of that one with no later manifest of the name; every entry counts, and nothing else is an edge |
| `DependsOnSpec.ResolvableByName` | pkg/runner/dag.go:39-123 | resolvable means that every name is good and no ring of manifests name one another |
| `DependsOnSpec.ReleaseDependents` | pkg/runner/dag.go:108-115 | every in-degree falls by the number of times its node is listed, never below 0, and retired ones stay |
| `DependencyOrder.LayersByName` | pkg/runner/dag.go:25-33 | the layers, read on names: whatever a manifest needs is in a strictly earlier layer, and every manifest has its place |
| `DependencyOrder.LinkDependencies` | pkg/runner/dag.go:63-79 | in-degrees and reversed edges of the whole graph with multiplicity, or the first broken reference in reading order; what the edges are is `DependsOnSpec.EdgesAreNames` |
| `DependencyOrder.LayerByLayer` | pkg/runner/dag.go:81-120 | all nodes placed means exact layers and no cycle; anything less means there is a cycle; the loop ends because the count of placed nodes grows |
| `DependencyOrder.ResolveDependencyOrder` | pkg/runner/dag.go:39-123 | on names: succeeds exactly when every non-empty dependsOn entry names another existing manifest and no manifests need each other in a ring; then whatever a manifest needs is in a strictly earlier layer and every manifest has its place; otherwise the first bad name in reading order, or a ring of names that exists; on the graph: the layers are the exact ones, one manifest each without dependsOn |
| `DependsOnValidator.CheckReferences` | pkg/validator/depends_on.go:28-45 | reports every bad entry of every dependsOn, in reading order and nothing else; nothing exactly when all are fine |
| `DependsOnValidator.Sweep` | pkg/validator/depends_on.go:64-75 | one in-place sweep keeps the numbering of consumed nodes topological; no progress means no node was free |
| `DependsOnValidator.ValidateDependsOn` | pkg/validator/depends_on.go:16-86 | nil exactly when all names are good and no manifests need each other in a ring; bad names are all reported, in order; a cycle is reported only with good names and when there is one |
| `DependsOnValidator.CheckThenOrder` | pkg/validator/depends_on.go:16-86 | the check and the ordering accept the same manifest lists and blame a cycle on the same ones, duplicate names included |
| `StateKeys.ParseInvertsToString` | pkg/state/key.go:33-72 | a printed key parses back to itself exactly when its fields are slash-free (a namespaced name may hold slashes) |
| `StateKeys.ToStringInvertsParse` | pkg/state/key.go:46-72 | parsing fails below five parts; printing a parsed key gives the text back except for an empty fifth part of six |
| `StateKeys.KeysAreDistinct` | pkg/state/key.go:33-41 | distinct slash-free identities have distinct keys, within and across the two forms |
| `StateKeys.PruneTargetsRecordedObject` | pkg/runner/state_helpers.go:15-33 | the object rebuilt from a recorded key is the recorded one exactly when its fields are slash-free |
| `StateKeys.KeyText` | pkg/state/key.go:33-41 | the text of a key, field by field, with five or six parts |
| `ConfigMapCodec.EncodeStateKey` | pkg/state/configmap.go:41-58 | the loop computes the specified encoding |
| `ConfigMapCodec.DecodeStateKey` | pkg/state/configmap.go:66-91 | the index loop computes the specified decoding, malformed escapes included |
| `ConfigMapCodec.DecodeInvertsEncode` | pkg/state/configmap.go:34-91 | decoding inverts encoding on every byte string |
| `ConfigMapCodec.EncodeCharacter` | pkg/state/configmap.go:41-58 | a slash becomes two underscores, a data key character itself, any other byte its two lower-case hexadecimal digits after _x |
| `ConfigMapCodec.EncodeAppend` | pkg/state/configmap.go:41-58 | a text is encoded character by character |
| `ConfigMapCodec.PlainTextIsEncodedAsBefore` | pkg/state/configmap.go:47-51 | text of data key characters without underscores, and slashes, is encoded as older versions did |
| `ConfigMapCodec.DecodeEscape` | pkg/state/configmap.go:66-91 | an escape with two hexadecimal digits of either case is the byte of that value |
| `ConfigMapCodec.DecodeOtherUnderscore` | pkg/state/configmap.go:66-91 | any other single underscore stays as it is |
| `ConfigMapCodec.EncodeIsInjective` | pkg/state/configmap.go:34-58 | no two keys share a data key |
| `ConfigMapCodec.EncodedIsDataKey` | pkg/state/configmap.go:26-58 | the encoding uses only the characters a ConfigMap data key may have |
| `ConfigMapCodec.EncodedUnderscore` | pkg/state/configmap.go:24-58 | a leading underscore is followed by another or by x, so the metadata key is never produced |
| `ConfigMapCodec.LegacyKeysDecode` | pkg/state/configmap.go:30-91 | keys of the older encoding, from underscore-free text, decode to the text |
| `ConfigMapStore.BuildConfigMapData` | pkg/state/configmap.go:223-241 | the data field holds the metadata and every entry, and nothing else, in whatever order the entries are walked |
| `ConfigMapStore.ParseConfigMapData` | pkg/state/configmap.go:197-220 | every data key yields its entry, an unreadable one the error, whatever the order; colliding keys may each win |
| `ConfigMapStore.ParseInvertsBuild` | pkg/state/configmap.go:196-241 | every possible parse of built data is exactly what was saved |
| `ConfigMapStore.StoredFormat` | pkg/state/configmap.go:223-241 | the keys and JSON fields under which the metadata and each entry are stored |
| `ConfigMapStore.ConfigMapStateStore.Get` | pkg/state/configmap.go:113-132 | what the ConfigMap of that name holds, empty state for a missing one, or the API error |
| `ConfigMapStore.ConfigMapStateStore.EnsureNamespaceOnce` | pkg/state/configmap.go:181-194 | asks for the namespace until it has succeeded once and never again; failures are not remembered |
| `ConfigMapStore.ConfigMapStateStore.Save` | pkg/state/configmap.go:134-179 | succeeds exactly when every call does, then the ConfigMap of that name holds the data; no other one changes |
| `ConfigMapStore.SaveThenGet` | pkg/state/configmap.go:113-179 | a saved state is what is read back, and another manifest's is untouched |
| `StateDiff.ComputeDiff` | pkg/state/diff.go:27-78 | an entry is listed exactly when its key is built and not saved, both with differing hashes, saved and not built, or built and always synced, with those hashes; each key once; added before modified before removed before always synced, keys ascending within each; in every map iteration order |
| `StateDiff.DiffIsExact` | pkg/state/diff.go:27-78 | the diff is the only sorted listing of exactly the classified keys with their hashes |
| `StateDiff.DiffSaysSo` | pkg/state/diff.go:27-78 | the specified diff, read off the saved and the built hashes alone |
| `StateDiff.LessIsListedBefore` | pkg/state/diff.go:69-93 | the sort order is by class, then by the first differing character, a prefix first |
| `StateDiff.SortedIsUnique` | pkg/state/diff.go:69-93 | two sorted listings of the same entries are equal, so the library's algorithm does not matter |
| `StateDiff.DiffKeysDistinct` | pkg/state/diff.go:31-67 | a key is listed at most once |
| `StateDiff.EmptyDiff` | pkg/state/diff.go:31-67 | nothing is listed exactly when build and state are equal and no key is always synced |
| `SyncRunner.CurrentState` | pkg/runner/apply.go:312-327 | key to hash and key to object of a build, the later object winning |
| `ApplyMeaning.EntriesListBuild` | pkg/runner/apply.go:312-327 | the entries are the keys of the objects, each with the hash of the last object that has it |
| `ApplyMeaning.ByKeyIsLast` | pkg/runner/apply.go:312-327 | the object applied for a key is the last one that has it |
| `SyncRunner.TazunaRunner.SyncEntry` | pkg/runner/apply.go:353-391 | one diff entry does to cluster and entries what a step of the model does |
| `SyncRunner.TazunaRunner.SyncDiff` | pkg/runner/apply.go:346-424 | the whole diff, the wait and the save, or the put-off save, end where the model's steps end |
| `SyncRunner.TazunaRunner.SyncManifest` | pkg/runner/apply.go:280-439 | for every outcome: the changes between saved entries and build are made in order up to the first that cannot be, each resource then having the content of the build's last object for the key, or gone; when it succeeds; what is saved or put off and when; and that all this is where the step model ends |
| `SyncMeaning.SyncMakesTheChanges` | pkg/runner/apply.go:280-439 | the step model of a sync makes the changes between saved entries and build, for every outcome, and records them exactly when all are made |
| `SyncMeaning.SyncedKeyHasContent` | pkg/runner/apply.go:353-370 | after a successful sync the resource of a key that was to be applied, and that nothing else in the sync is about, has the content of the last object with the key, body included |
| `SyncRunner.TazunaRunner.ManagerApply` | pkg/manager/kustomize.go:113-136 | the objects are put in build order up to the first failing call, that one included if it took effect; every resource has the content of its last object put, all others are as before; it fails exactly when some call does |
| `SyncRunner.TazunaRunner.ApplyManifest` | pkg/runner/apply.go:222-272 | the same for a whole apply without sync: succeeds exactly when the build is up, no call on an object fails, the tests pass and a named manifest's save works; records the build exactly then, and touches no other save |
| `ApplyMeaning.ApplyPutsTheBuild` | pkg/runner/apply.go:222-272 | the step model of an apply without sync puts the objects and records the build, for every outcome |
| `SyncRunner.TazunaRunner.SaveManifestState` | pkg/runner/apply.go:461-503 | the saved entries become the build's |
| `SyncRunner.TazunaRunner.ApplyLayer` | pkg/runner/apply.go:155-191 | the selected manifests of a layer, each to its end even after a failure |
| `SyncRunner.TazunaRunner.ApplyLayers` | pkg/runner/apply.go:155-195 | layers up to and including the first with a failure |
| `SyncRunner.TazunaRunner.CommitPending` | pkg/runner/apply.go:197-204 | all put-off saves, in any order, exactly when none of them fails; otherwise the name of one that did, with some that do not fail made and the others still put off |
| `SyncRunner.TazunaRunner.ApplyToCluster` | pkg/runner/apply.go:105-204 | an unresolvable order touches nothing; otherwise the selected manifests are applied one after the other, layer by layer, each as a single apply or sync, up to and including the first layer with a failure; put-off saves come last, a failing one leaving the cluster of the layers and the saves made before it |
| `RunTrace.LayersTrace` | pkg/runner/apply.go:147-195 | applying layers in order is a list of single applies or syncs, each starting where the one before ended, of exactly the selected manifests, each once, in layer and declaration order |
| `LayeredApply.SelectionByTags` | pkg/runner/tags.go:13-23 | a manifest is selected exactly when there is no filter or it has one of its tags |
| `SyncRunner.AnyTagMatches` | pkg/runner/tags.go:13-23 | the loop decides exactly that |
| `SyncEffects.RecordingReachesTarget` | pkg/runner/apply.go:346-391 | carrying out a diff turns the saved entries into the build with prune, and adds the build to them without |
| `SyncEffects.RunSucceeds` | pkg/runner/apply.go:280-439 | a sync succeeds exactly when every call it has to make does, and then has made all of them |
| `SyncEffects.RunFails` | pkg/runner/apply.go:346-436 | a failed sync has changed only slots its diff names and no save, or it had done everything but its tests |
| `SyncEffects.RunStoresTarget` | pkg/runner/apply.go:346-424 | the entries stored after a successful sync, the empty diff included |
| `SyncEffects.UnchangedBuildIsANoOp` | pkg/runner/apply.go:344-424 | a second prune sync of an unchanged build has an empty diff: no call, no save |
| `SyncEffects.PlainApplyForgets` | pkg/runner/apply.go:457-503 | an apply without sync leaves the build alone in the record |
| `SyncRetry.RetryConverges` | pkg/runner/apply.go:346-424 | after a failure anywhere, with failing calls that may have landed, a successful sync ends in the same world as one uninterrupted sync |
| `SyncRetry.RetriesConverge` | pkg/runner/apply.go:346-424 | the same after any number of failed attempts |
| `SyncRetry.FailureKeepsState` | pkg/runner/apply.go:346-424 | a sync that fails before its tests leaves the store untouched |
| `SyncHistory.RecordTrueIff` | pkg/runner/apply.go:353-391 | from any record and cluster, with or without prune: after a successful sync every recorded key is in the cluster with its hash exactly when each comes true by the last diff entry on its resource, or is untouched and was there |
| `SyncHistory.PruneKeepsRecordTrueIff` | pkg/runner/apply.go:353-391 | after a prune run, from any record: true exactly when no build key that is not always synced shares a resource with a dropped key, and every build key is in the diff or was rightly recorded |
| `SyncHistory.PruneKeepsTrueRecordIff` | pkg/runner/apply.go:353-391 | so a true record stays true under prune exactly when no dropped key shares a resource with a build key that is not always synced |
| `SyncHistory.AddingKeepsTrueRecordIff` | pkg/runner/apply.go:353-391 | without prune it stays true exactly when every dropped key is recorded with the hash of a build key on the same resource, if there is one |
| `SyncHistory.VersionBumpLosesResource` | pkg/runner/apply.go:353-391 | any object moved to another API version is gone after a successful prune sync and recorded all the same |
| `SyncHistory.LossIsDelayed` | pkg/runner/apply.go:353-391 | moved without prune it is live and recorded twice, and a later prune sync of the same build deletes it and keeps it recorded |
| `SyncLedger.CleanRunIsExact` | pkg/runner/apply.go:344-424 | a run whose saved and built keys are different resources keeps the record true, leaves of their slots exactly those of saved keys occupied and touches no other |
| `SyncLedger.HistoryIsExact` | pkg/runner/apply.go:344-424 | after any history of successful syncs from an empty manifest, with any prune flags, recorded keys are in the cluster with their hashes, of the slots of all keys ever applied exactly those of recorded keys are occupied, and no other slot has changed |
| `SyncLedger.StateRecordsLastApplication` | pkg/runner/apply.go:344-424 | a key is saved with a hash exactly when it was last applied with it and no later prune run dropped it |
| `SyncLedger.PruneForgetsNothingElse` | pkg/runner/apply.go:371-389 | after a prune run the saved entries are the build |
| `SyncFailures.AttemptLeaves` | pkg/runner/apply.go:346-424 | an attempt that gets as far as saving leaves what a successful one does; any other leaves the saved state and makes the calls of its diff up to the first that fails |
| `SyncFailures.ForgottenIsExact` | pkg/runner/apply.go:346-424 | after any attempts, failed or not, the cluster holds of the keys ever applied and not recorded exactly the forgotten ones |
| `SyncFailures.NothingForgottenIff` | pkg/runner/apply.go:346-424 | every key ever applied is recorded or gone exactly when whatever a failed attempt left behind is in the build of a later one that saves |
| `SyncFailures.FailedBuildStays` | pkg/runner/apply.go:346-424 | an object whose first sync fails at its save and that is then dropped stays: the next prune sync succeeds, does nothing and records nothing |
| `LayerConfluence.StepLocal` | pkg/runner/apply.go:280-439 | a step of a manifest sees and changes only its own resources and saves |
| `LayerConfluence.StepKeepsInv` | pkg/runner/apply.go:161-181 | whichever goroutine moves, every manifest stays on the way to the end it would reach alone |
| `LayerConfluence.EveryScheduleIsInOrder` | pkg/runner/apply.go:155-191 | every interleaving of a layer whose manifests share no resource and no name ends in the world of applying them one by one, each with its own verdict |
| `LayeredApply.StartedAfterDependencies` | pkg/runner/apply.go:147-195 | when a manifest has begun, every selected manifest it depends on, however indirectly, has succeeded |
| `LayeredApply.FailureStopsLaterLayers` | pkg/runner/apply.go:183-195 | once a manifest has failed no manifest of a later layer ever begins |
| `AtomicApply.AtomicSavesAfterAllSucceeded` | pkg/runner/apply.go:402-418 | in an atomic run no stored state changes before every selected manifest has succeeded, so none does when one fails |
| `AtomicApply.CompletedEntries` | pkg/runner/apply.go:197-204 | a completed run, atomic or not, leaves the target entries for every selected manifest and the old ones for all other names |
| `AtomicApply.AtomicSavesTheSame` | pkg/runner/apply.go:197-204 | a completed atomic and a completed ordinary run from the same state store the same entries |
| `AtomicApply.FailedFinalSaveKeepsEarlierOnes` | pkg/runner/apply.go:197-204 | a failing final save leaves the earlier ones in the store |
| `AtomicFailure.RunLayers` | pkg/runner/apply.go:147-195 | from every running state there is a way to the end of the layers, or to a layer with a failed manifest |
| `AtomicFailure.ReachesFinalSaves` | pkg/runner/apply.go:147-204 | a run in which every call works gets to the final saves, with one for every selected manifest whose diff has entries |
| `AtomicFailure.AllOrNothingIff` | pkg/runner/apply.go:197-204 | an aborted atomic run leaves all entries as they were, whatever fails, exactly when no manifest that changes its entries is selected with another one whose diff has entries, or some selected diff cannot be carried out |
| `RunConfluence.EveryRunIsInOrder` | pkg/runner/apply.go:147-204 | every run under every schedule leaves the world of the in-order run, in atomic mode with the put-off saves made so far and all of them once completed, and stops at the first layer with a manifest that fails on its own |
| `CommandClient.KeysAreDistinct` | pkg/op/validate.go:12-25 | two valid vault and item pairs never share a cache key |
| `CommandClient.NextKeepsInv` | pkg/op/command_client.go:100-126 | every step keeps: the cache answers with the right key, an entry it no longer holds has failed, a fetch is in one caller's hands |
| `CommandClient.OneFetchOneSuccess` | pkg/op/command_client.go:28-32 | no entry is fetched twice, of the entries of a key at most one has not failed, and all calls that got an item got the same one |
| `CommandClient.OnlyFailedEntriesLeave` | pkg/op/command_client.go:115-124 | no step drops or replaces a cached entry unless that very entry has failed |
| `CommandClient.NoStaleError` | pkg/op/command_client.go:86-89 | a call that begins after an entry's error was returned never gets that entry |
| `CommandClient.SuccessIsMemoized` | pkg/op/command_client.go:86-89 | once a fetch has succeeded every item returned for the key later is that one |
| `CommandClient.Client.LockedLookUp` | pkg/op/command_client.go:100-109 | afterwards the key leads to the returned entry, a fresh one only if there was none; all other keys and entries stay, and so does the cache invariant |
| `CommandClient.Client.LockedEvict` | pkg/op/command_client.go:118-122 | afterwards the key does not lead to the caller's entry; a newer entry in its place and all other keys stay, and so does the cache invariant if the entry has failed |
| `CommandClient.Client.GetVaultItem` | pkg/op/command_client.go:90-127 | undisturbed: a remembered item without a fetch, a fetched one remembered, an error not; rejected without effect exactly when a name is empty or has a character that is no letter, number, underscore, dot, dash or space |
| `ArtifactCache.DirectoriesAreDistinct` | pkg/manager/oras/puller.go:248-252 | distinct digests have distinct directories |
| `ArtifactCache.FilesCollideIff` | pkg/manager/oras/puller.go:241-246 | two references share a mapping file exactly when they differ only in which of slash, colon, at-sign and underscore separates their parts |
| `ArtifactCache.TagsHaveOwnFiles` | pkg/manager/oras/puller.go:241-246 | different tags of one repository never share a file |
| `ArtifactCache.ReferenceFilesCollide` | pkg/manager/oras/puller.go:241-246 | in any registry, repositories that differ by a slash against an underscore have the same mapping file at the same tag |
| `ArtifactCache.NextKeepsRecords` | pkg/manager/oras/puller.go:105-219 | every step of every puller, crashes and removals of single files included, keeps mappings resolved and offline pulls away from the registry |
| `ArtifactCache.NextKeepsComplete` | pkg/manager/oras/puller.go:105-219 | every step keeps directories complete, as long as removal is one step or no request removes an artifact that has files |
| `ArtifactCache.CachedIsComplete` | pkg/manager/oras/puller.go:105-219 | a cached directory is then always the complete extraction of its digest |
| `ArtifactCache.AlwaysCompleteIff` | pkg/manager/oras/puller.go:142-146 | a list of requests keeps directories complete in every run over every cache exactly under that condition |
| `ArtifactCache.HitEqualsPull` | pkg/manager/oras/puller.go:117-219 | whatever directory a pull settles on is there and is exactly the artifact of the digest it returns, the requested one if one was requested |
| `ArtifactCache.OfflineNeverAsks` | pkg/manager/oras/puller.go:127-129 | an offline pull never contacts the registry |
| `ArtifactCache.MappingWasResolved` | pkg/manager/oras/puller.go:259-292 | a tag's mapping was resolved for that reference if no other reference in play shares its file |
| `ArtifactCache.MappingsAreOwnIff` | pkg/manager/oras/puller.go:241-292 | over an empty cache every mapping under a reference's file was resolved for it exactly when no online tag request for another reference shares the file |
| `ArtifactCache.CollidingReferenceHits` | pkg/manager/oras/puller.go:103-125 | a reference sharing another's file is answered with the other's artifact, without asking |
| `ArtifactCache.PartialDirectoryIsServed` | pkg/manager/oras/puller.go:143-146 | with removal file by file, from any state, a pull can be answered with a directory that a NoCache pull has begun to empty |
| `ArtifactCache.CachingPuller.Pull` | pkg/manager/oras/puller.go:82-220 | one pull on its own: when it is a hit, when it asks the registry, when it succeeds, and what cache and mappings hold afterwards; mappings of references that differ in more than separators are neither read nor changed |
| `TestPolling.WindowSuffices` | pkg/testplugin/runner.go:44-66 | dropping all but the longer run's number of outcomes changes neither condition |
| `TestPolling.EndsWithIsCounted` | pkg/testplugin/runner.go:81-124 | ending in n equal outcomes is a run-length counter having reached n |
| `TestPolling.CountersDecide` | pkg/testplugin/runner.go:53-78 | two counters give the verdict of the full history |
| `TestPolling.Start` | pkg/testplugin/runner.go:22-79 | the loop stops at the first call after which the full history meets a condition, success first, as the counters do; what negative counts do |
| `ManifestNames.ValidateManifestNames` | pkg/validator/manifest_name.go:28-48 | exactly the invalid names with their errors and the repeated valid names with how often they occur; nothing exactly when all names are valid and distinct |
| `ManifestNames.ComplaintIs` | pkg/validator/manifest_name.go:50-68 | which complaint a name gets, on its characters |
| `ManifestNames.UsesIsCount` | pkg/validator/manifest_name.go:28-48 | a name is counted once for every position it has |
| `ManifestNames.GeneratedIsDnsName` | pkg/validator/manifest_name_fix.go:40-84 | a generated name of a supported type matches the name pattern, whatever the path |
| `ManifestNames.BaseOfPath` | pkg/validator/manifest_name_fix.go:52-63 | the last element of a path is its base, whatever comes before; slashes and dots after it do not matter and a dot-dot takes it back |
| `ManifestNames.GeneratedFromPath` | pkg/validator/manifest_name_fix.go:40-84 | the type, a dash and the last path element, with its characters mapped and dashes trimmed |
| `ManifestNames.GeneratedFromNoPath` | pkg/validator/manifest_name_fix.go:40-56 | the type alone without a path |
| `ManifestNames.FirstFreeIs` | pkg/validator/manifest_name_fix.go:86-98 | the first free candidate, on texts: the name, or the name, a dash and the least number from 2 on that is free |
| `ManifestNames.ItoaIsDecimal` | pkg/validator/manifest_name_fix.go:92-97 | the number is written in decimal |
| `ManifestNames.ItoaIsInjective` | pkg/validator/manifest_name_fix.go:92-97 | different numbers have different decimal suffixes |
| `ManifestNames.EnsureUnique` | pkg/validator/manifest_name_fix.go:86-98 | the first free candidate; the search ends because candidates differ and used names are finite |
| `ManifestNames.FixManifestNames` | pkg/validator/manifest_name_fix.go:15-28 | a manifest with a name or with includes is untouched; any other gets its generated name, or that with a dash and the first number from 2 on that is free among all existing names and those given before, and nothing else of it changes |
| `ManifestNames.FixedIsAcceptedIff` | pkg/validator/manifest_name_fix.go:11-28 | the validator accepts a fixed list exactly when the existing names were valid and distinct and no generated name is too long |
| `HelmValues.MergeMaps` | pkg/manager/helmfile.go:891-906 | the loop merges table by table in every key order |
| `HelmValues.MergeScalars` | pkg/manager/helmfile.go:889-906 | the scalars of a merge are those of the right side and those of the left on paths the right says nothing about |
| `HelmValues.FoldSays` | pkg/manager/helmfile.go:404-413 | folding sources leaves a scalar at a path exactly when some source has it there and no later one decides the path |
| `HelmValues.FoldSources` | pkg/manager/helmfile.go:404-413 | the loop computes that |
| `HelmValues.EmptyIsIdentity` | pkg/manager/helmfile.go:891-906 | the empty table is an identity on both sides |
| `HelmValues.AssociativeIff` | pkg/manager/helmfile.go:891-906 | exactly when the grouping of merges does not matter |
| `HelmValues.ScalarBetweenTables` | pkg/manager/helmfile.go:891-906 | a family of values on which it does |
| `HelmValues.SharedExtrasFoldInOrderIff` | pkg/manager/helmfile.go:404-413 | extra values folded once and merged last equal all sources folded in order exactly when they fold apart from the values of the release |
| `HelmValues.SharedExtrasFoldInOrder` | pkg/manager/helmfile.go:404-413 | they do when no path is a table in the values of the release and a scalar in an extra source, or the other way round |
| `HelmValues.RenderValues` | pkg/manager/helmfile.go:591-599 | a scalar is at a path exactly when some source says so and none after it says otherwise, release values before extra ones, if the sources are compatible; in general the merge of the two folds, which is the fold in order exactly when they fold apart |

## Left out

- SyncLedger.HistoryIsExact: for successful syncs that save as they go, with nobody else writing to the resources and, in each run, saved and built keys that are different resources; what one run does otherwise is `SyncHistory.RecordTrueIff`, what failed ones leave `SyncFailures.NothingForgottenIff`.
- SyncFailures.NothingForgottenIff: for keys that are different resources over the whole history.
- SyncHistory.LossIsDelayed: says what a second sync does if it succeeds; `SyncEffects.RunSucceeds` says when it does.
- LayerConfluence.EveryScheduleIsInOrder: assumes the manifests of the layer share no resource, counting with prune those of the saved keys their builds have dropped; manifests that write the same resource race in the program too.
- ArtifactCache.NextKeepsRecords: a directory that existed is replaced only by a rename onto nothing or onto an empty directory; a removal may stop after any file.
- ArtifactCache.ReferenceFilesCollide: which texts are references is the registry library's to say and not modelled; any legal registry, repository parts and tag give an instance.
- ArtifactCache.CachingPuller.Pull: takes from the registry that it answers a digest reference with that digest and serves the content of the digest it was asked for; whitespace around a stored mapping is not modelled.
- ManifestNames.ValidateManifestNames: counts characters where the program counts bytes; only names that are rejected either way can tell, by which error they get.
- StateDiff.ComputeDiff: the library sort is a function here; its result is proved to be the only possible one.
- DependencyOrder.ResolveDependencyOrder: a layer lists positions and not copies of manifests.
- ConfigMapStore.ParseConfigMapData: a stored text is the JSON object it holds or none; JSON itself, and bytes that are not text, are not modelled.
- The state store of the apply model is a map from names to entries; that the ConfigMap store behaves like one is proved separately.
- Kubernetes calls are puts and deletes of whole contents that may fail and may have landed; server-side apply, recreation of Jobs and Pods, and waits are one possibly failing call.
- Content hashes and rendered builds are given, not computed; no claim depends on hashes being collision-free.
- Timestamps and commit hashes in saved state, logging, tracing and the command line.
- Tests after all manifests of a run; a manifest's own tests are one outcome.
- Include expansion, templating, helm, kustomize and archive extraction; an extraction is a set of files added one by one.
- The documented poll interval of 0 means at once, the code waits two seconds; time is not modelled.
- Panics inside a fetch, and a fetch that never returns: safety is proved, not that calls end.
