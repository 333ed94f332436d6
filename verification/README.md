# Cluster API provider Gardener: a verified model

The provider keeps one Gardener `Shoot` and several Cluster API objects in step: the
GardenerShootControlPlane (GSCP), the GardenerShootCluster (GSC) and the GardenerWorkerPools. For
each of the three kinds there is a reconciler that writes the object's spec to the Shoot and one
("PrioritizeShoot") that writes the Shoot's spec back. On top of that sit the creation of the Shoot,
a deletion protocol driven by finalizers, a kubeconfig Secret that is renewed before it expires, and
the status derived from nodes and Shoot conditions.

| file | content |
|---|---|
| `Wrappers.dfy` | the option type |
| `ApiTypes.dfy` | the objects, with the source's field names; field values are opaque |
| `Sync.dfy` | what the sync functions compute, and how each pair of directions relates |
| `SyncHeap.dfy` | the sync functions and the spec-sync reconciles in place: maps, slices, deep copies, patch guards |
| `Patch.dfy` | patches as differences applied to whatever the server holds |
| `Forward.dfy` | the forward reconcilers interleaved, with stale reads: linearisation and confluence |
| `Convergence.dfy` | both directions together, whole reconciles: few patches, two rounds settle, the first writer wins |
| `Overlap.dfy` | the same call by call: when overlapping reconciles behave like whole ones, and what happens otherwise |
| `LateWrites.dfy` | what a patch writes on a server that has moved on since its reads |
| `Provenance.dfy` | patches of any age and edits from outside: no value out of thin air, field by field |
| `Creation.dfy` | gathering worker pools, building the Shoot, agreement with the reconcilers |
| `Labels.dfy` | reference labels and the way back from a Shoot to its objects |
| `Deletion.dfy` | finalizers and deletion, one API call at a time: safety under exact conditions |
| `DeletionProgress.dfy` | the same reconciles uninterrupted and imperative: when everything goes away |
| `Initialized.dfy` | the `Initialized` flag and the endpoint under copies of any age |
| `Kubeconfig.dfy` | validity arithmetic, decimal encoding, renewal rate of interleaved attempts |
| `ProviderIds.dfy` | provider ID lists, readiness and replicas from the nodes |

## What the proofs show about the code

- **A missing annotation map blocks a direction.** `syncAnnotations` writes into its target map. An
  object without annotations has none, so the forward sync panics exactly if the Shoot has no
  annotations and the GSCP carries `gardener.cloud/operation` (and the backward sync in the mirrored
  case). A freshly created Shoot has no annotations. In the model a panic ends the reconcile without
  a patch. The two directions never block each other (`NeverBothPanic`): the open one removes the
  annotation that blocks the other, so an operation annotation set on the GSCP of such a Shoot is
  lost (`BlockedForwardLosesTheAnnotation`). Forward reconciles alone reach the control plane's spec
  if and only if they do not panic at the start (`EveryoneHeard`).
- **Opposite directions that overlap can exchange their values for ever.** The two directions of a
  pair are separate controllers whose patches carry no version. If both read while the sides disagree
  and then both patch, Shoot and CAPI object swap values and still disagree; n such overlaps send 2n
  patches (`OverlapsNeverSettle`), and two of them undo each other (`ExchangedTwice`). All is well as
  long as no reconcile sends a patch after the opposite direction landed one on something it had read
  by then: every such run is a run of whole reconciles (`CleanRunsAreSequential`), it sends at most
  3+n patches for n pools (`NoPingPong`), it settles (`TwoRounds`) and the first writer wins. For every
  pair that condition is exact: after such a late patch, and after no other event, the run can go on,
  without another one, to more patches than the bound (`BoundIsExact`). Different pairs may overlap
  freely, and directions that do not overlap meet the condition (`ApartIsClean`).
- **A late patch overwrites.** Whatever edits and patches came since its reads, a patch gives its
  target the values of its source on exactly the fields on which the two disagreed when they were read,
  and leaves every other field as the server has it (`LatePatchOverwrites`).
- **A Shoot can be orphaned by dropping the finalizer too early.** One GSCP controller can create a
  Shoot after the other, serving a delete, has let the GSCP go (`InterleavedControllersOrphanAShoot`).
  A Shoot or Secret is never orphaned as long as no call drops the finalizer while one is there or
  while the other controller is committed to creating one (`ShootSafety`); after every other event a
  careful run stays safe, after such a call it can be continued into an orphan (`HazardIsExact`). A
  prioritized sync that has its version-checked status update still to make is not committed.
  Syncs may overlap with syncs and deletions with deletions (`OverlappingSyncsAreSafe`): only a
  reconcile that read the GSCP before its deletion must not overlap one that read it afterwards.
- **A GSCP can be created too late for its Cluster's deletion to see it.** It is then given an owner
  that no longer exists (`LateGscpIsOwnedByNobody`). The window begins when the Cluster controller
  has found no GSCP and can still let the Cluster go, and ends with that reconcile; `WindowIsExact`
  says that a GSCP created in it can lose its Cluster and one created at any other time, also before
  the Cluster exists or while it is going, cannot (`ClusterSafety`).
- **Deletion can get stuck.** Fair rounds remove everything if and only if, when the Cluster
  controller first reconciles the deleted Cluster, a finalized GSC is owned or its GSCP is finalized,
  every Secret and every Shoot not yet deleted has a finalized GSCP, and nothing finalized is paused
  (`DeletionCompletes`). Users and uninterrupted reconciles never break that order, except by the pause
  or by a Shoot that users put up themselves (`FromSoundToGone`). A reconcile that something comes
  between can: a GSC replaced between the read and the finalizer patch of its reconcile is finalized
  without an owner and, its GSCP gone, never released (`UnownedInfraIsStuck`).
- **An unreadable validity entry** in the access Secret is never repaired (`UnreadableIsStuck`).
- **Endpoint patches are not version-checked.** An endpoint implies `Initialized` however often the
  GSCP is replaced, as long as no reconcile then has an endpoint to set on the strength of an
  initialized copy of the old one (`EndpointImpliesInitialized`); a replacement while one does can give
  the uninitialized successor an endpoint (`RecreationIsExact`). A copy that already carries the
  address the Shoot advertises has none to set: for a forward sync that has just begun a replacement
  is harmless exactly if the address is set and cannot change (`ReplacementDuringForwardSync`). Over
  the life of one object the flag never goes back (`InitializedIsForever`).
- **Duplicate worker names** are the only thing that stands between Shoot to pool to Shoot and the
  identity, unless the duplicates are equal (`WorkerRoundTrips`).

Where the source's comments and its code differ, the model follows the code: `Status.Ready` is
recomputed although its comment says it is never updated; `ProjectNamespace` is used as it is although
its comment promises a default; `CloudProfileName` is not synced with `CloudProfile`; the GSCP status
update is always sent, because the comparison that should skip it compares a struct with a pointer.

## Assumptions

- Names of pools in one namespace are unique (`DistinctPools`), and Gardener admits only Shoots with
  unique worker names (`DistinctWorkers`). Results that hold without the second do not assume it.
- The Cluster's name and the GSCP's `ProjectNamespace` identify one Shoot and do not change.
- Reads return what the server holds at that moment. In `Forward`, `Overlap`, `Provenance`,
  `Kubeconfig` and `Initialized` any amount of time may pass between a read and the write based on it.
  In the safety results of `Deletion` every call that reads or writes what is modelled there is a
  step; setting an owner is a read and a version-checked update and counts as one call. In
  `Convergence` and in the progress results of `DeletionProgress` a reconcile is one step.
- A controller works on one object at a time, and no pool is added or removed while `Overlap` runs.
- Users create, delete, pause and edit specs; they do not edit finalizers, owner references or the
  Secret. One flag stands for everything that pauses a Cluster's objects; setting it is not a change of
  the Cluster that a version check would notice.
- In progress of deletion reconciles are not interrupted, and users act only before the rounds begin.
- The clock is monotone, and the access Secret is not deleted while renewals are counted.

## Model

| member | source | states |
|---|---|---|
| Sync.AnnotationSync | internal/util/util.go:99-115 | for any allow-list the target afterwards agrees with the source on allowed keys in presence and value and is unchanged elsewhere; syncing twice or back changes nothing more; nothing changes exactly if they agreed before |
| Sync.ControlPlaneForward | internal/util/util.go:118-139 | after the forward sync every copied field and the allowed annotation agree and nothing else moved (workers, infra fields, cloud profile, credentials binding, access restrictions); it is a no-op exactly on agreement, and neither direction panics afterwards |
| Sync.ControlPlaneBackward | internal/util/util.go:142-163 | after the backward sync these and the two Shoot-only fields agree; endpoint, version, project namespace, workerless and cloud profile are kept; it is a no-op exactly on full agreement |
| Sync.ControlPlaneRoundTrips | internal/util/util.go:118-163 | Shoot to GSCP to Shoot is the identity; GSCP to Shoot to GSCP changes at most CredentialsBindingName and AccessRestrictions |
| Sync.AgreementDoesNotPanic | internal/util/util.go:99-115 | once the allowed annotation agrees neither direction writes into a nil map |
| Sync.NeverBothPanic | internal/util/util.go:99-115 | the two directions never panic in the same state |
| Sync.BlockedForwardLosesTheAnnotation | internal/util/util.go:99-115 | when the forward direction panics the backward one runs and removes the operation annotation from the GSCP |
| Sync.InfraPair | internal/util/util.go:166-181 | the two GSC directions are exact inverses, write five fields only, and are no-ops exactly on agreement |
| Sync.WorkerPoolFields | internal/util/util.go:200-228 | a worker entry equals its pool in all 23 shared fields and the name, and copying back restores the pool and keeps its provider IDs |
| Sync.BackwardPicksTheLast | internal/util/util.go:242-272 | the last worker of the pool's name gives every field; without one the pool is unchanged |
| Sync.PoolForward | internal/util/util.go:231-239 | every worker of the name becomes the pool's entry; names, count, order and other workers stay; no-op exactly on agreement |
| Sync.PoolBackward | internal/util/util.go:242-272 | idempotent; a no-op exactly if the last worker of the name equals the pool |
| Sync.WorkerRoundTrips | internal/util/util.go:231-272 | pool to Shoot to pool always restores the pool; Shoot to pool to Shoot restores the Shoot if and only if all workers of the name are equal |
| SyncHeap.SyncAnnotations | internal/util/util.go:99-115 | the in-place loop computes the synced map, leaves the source alone (aliasing included) and panics exactly if the target is nil and an allowed key must be stored |
| SyncHeap.SyncShootSpecFromGSCP | internal/util/util.go:118-139 | in place: the forward control plane sync, or nothing at all on a panic |
| SyncHeap.SyncGSCPSpecFromShoot | internal/util/util.go:142-163 | in place: the backward control plane sync, or nothing at all on a panic |
| SyncHeap.SyncShootProviderFromGSCP | internal/util/util.go:184-189 | in place: all four provider settings, nothing else |
| SyncHeap.SyncGSCPProviderFromShoot | internal/util/util.go:192-197 | in place: all four provider settings, nothing else |
| SyncHeap.SyncShootSpecFromCluster | internal/util/util.go:166-172 | in place: the forward infra sync |
| SyncHeap.SyncClusterSpecFromShoot | internal/util/util.go:175-181 | in place: the backward infra sync |
| SyncHeap.SyncShootSpecFromWorkerPool | internal/util/util.go:231-239 | the loop over the shared worker slice rewrites exactly the workers of the name |
| SyncHeap.SyncWorkerPoolFromShootSpec | internal/util/util.go:242-272 | the loop leaves the pool as the last worker of the name says |
| SyncHeap.PatchShootIfChanged | internal/util/util.go:325-327 | a patch is sent exactly if spec, workers or annotations differ from the baseline, and it makes a server that still holds the baseline equal to the synced Shoot |
| SyncHeap.PushControlPlaneSpecs | internal/controller/controlplane/gardenershootcontrolplane_controller.go:436-451 | although the sync mutates shared maps, the deep-copied baseline is intact: the patch is the difference of the Shoot as read and as synced, whatever the server holds |
| SyncHeap.PullControlPlaneSpecs | internal/controller/controlplane/gardenershootcontrolplane_controller.go:420-435 | the same for the GSCP patch |
| SyncHeap.SyncControlPlaneSpecs | internal/controller/controlplane/gardenershootcontrolplane_controller.go:414-455 | on fresh reads one reconcile is one protocol step and sends a patch exactly if the step changes something; it panics exactly when the step is blocked |
| SyncHeap.SyncInfraSpecs | internal/controller/infrastructure/gardenershootcluster_controller.go:193-245 | the patch is the difference of the object as read and as synced, whatever the server holds; on fresh reads one reconcile is one protocol step with an exact patch guard |
| SyncHeap.PushPoolSpecs | internal/controller/infrastructure/gardenerworkerpool_controller.go:150-166 | although the worker slice is rewritten in place the patch is the difference to the Shoot as read |
| SyncHeap.SyncPoolSpecs | internal/controller/infrastructure/gardenerworkerpool_controller.go:116-169 | on fresh reads one reconcile is one protocol step with an exact patch guard |
| Patch.EmptyPatch | internal/util/util.go:325-327 | a patch without difference leaves any Shoot as it is |
| Patch.FreshPatch | internal/controller/controlplane/gardenershootcontrolplane_controller.go:442-445 | a patch applied to its baseline gives the modified Shoot |
| Patch.ControlPlanePatch | internal/controller/controlplane/gardenershootcontrolplane_controller.go:426-429 | both facts for GSCP patches |
| Patch.ShootPatchLands | internal/controller/controlplane/gardenershootcontrolplane_controller.go:442-445 | for any baseline, modified and stored Shoot: every spec field, annotation and worker field on which baseline and modified differ has the modified value afterwards, every other one the stored value |
| Patch.ControlPlanePatchLands | internal/controller/controlplane/gardenershootcontrolplane_controller.go:426-429 | the same for every spec field and annotation of a GSCP |
| Patch.InfraPatchLands | internal/controller/infrastructure/gardenershootcluster_controller.go:210-221 | the same for the five GSC fields |
| Patch.PoolPatchLands | internal/controller/infrastructure/gardenerworkerpool_controller.go:129-145 | the same for every field of a worker pool |
| LateWrites.LatePatchOverwrites | internal/controller/infrastructure/gardenershootcluster_controller.go:193-245 | for all six reconcilers, with any edits and patches between their reads and their patch: the target gets the values read from the source on exactly the fields, annotation and worker fields on which the sides disagreed as read; everything else is as just before |
| Forward.StalePatchIsFreshSync | internal/controller/controlplane/gardenershootcontrolplane_controller.go:414-455 | a patch computed from a stale Shoot has exactly the effect of a fresh reconcile on what the server holds |
| Forward.StalePatchesLinearise | internal/controller/infrastructure/gardenershootcluster_controller.go:226-242 | any interleaving of read and patch calls of any number of forward reconciles ends in the Shoot of running whole reconciles in patch order; no update is lost |
| Forward.SequentialWrites | internal/controller/infrastructure/gardenerworkerpool_controller.go:150-166 | after any sequence the fields of exactly those who wrote equal their CAPI specs; worker count, order and names, cloud profile, credentials binding, access restrictions and other annotations are untouched |
| Forward.ForwardConfluence | internal/controller/controlplane/gardenershootcontrolplane_controller.go:436-451 | two interleavings in which the same reconcilers patched end in the same Shoot |
| Forward.EveryOrderOccurs | internal/controller/infrastructure/gardenershootcluster_controller.go:226-242 | every order of whole forward reconciles is the patch order of some run of reads and patches |
| Forward.EveryoneHeard | internal/util/util.go:118-139 | once all have written the Shoot carries the GSC's and all pools' specs, and the GSCP's if and only if the first annotation sync does not panic |
| Convergence.PairsAreIndependent | internal/util/util.go:118-272 | a step of one pair leaves everything the other pairs read unchanged |
| Convergence.TotalCostStep | internal/util/util.go:118-272 | every whole reconcile of the six changes nothing or lowers a natural number |
| Convergence.SettledIffQuiet | internal/util/util.go:99-272 | all steps are no-ops exactly if everything agrees, panics notwithstanding |
| Overlap.StalePatchIsStep | internal/controller/infrastructure/gardenershootcluster_controller.go:193-245 | a patch computed from an earlier read has exactly the effect of a fresh reconcile if the pair's objects are as they were read, whatever the other pairs did |
| Overlap.PatchStaysInItsPair | internal/util/util.go:118-272 | a patch computed from a read of any age changes nothing the other pairs look at |
| Overlap.PairIsSequential | internal/controller/controlplane/gardenershootcontrolplane_controller.go:414-455 | for one pair, whatever the others do: unless a reconcile patches after the opposite direction patched what it had read, its objects go through a run of whole reconciles with as many patches |
| Overlap.CleanRunsAreSequential | internal/controller/infrastructure/gardenershootcluster_controller.go:193-245 | reads and patches of all six kinds interleaved: unless a reconcile patches after the opposite direction patched what it had read, the world is that of whole reconciles in patch order, with as many patches |
| Overlap.ApartIsClean | internal/controller/infrastructure/gardenershootcluster_controller.go:248-267 | directions that do not overlap between first read and patch meet the condition |
| Overlap.NoPingPong | internal/util/util.go:99-272 | clean runs of any length send at most 2 patches for the GSCP pair, 1 for the GSC pair and 1 for each pool: 3+n in all |
| Overlap.OnePatchIffClean | internal/controller/infrastructure/gardenershootcluster_controller.go:193-245 | whatever the other pairs do, a GSC or pool pair sends more than one patch exactly if a reconcile of it patches after the opposite direction patched what it had read |
| Overlap.BoundIsExact | internal/controller/controlplane/gardenershootcontrolplane_controller.go:414-455 | for every pair and every event after a clean run: the run can go on cleanly to more than 2 patches for the GSCP, or 1 for the GSC or a pool, if and only if the event is such a late patch |
| Overlap.OverlapExchanges | internal/controller/infrastructure/gardenershootcluster_controller.go:193-245 | wherever the sides of a pair disagree, two overlapping directions exchange their values with two patches |
| Overlap.ExchangedTwice | internal/util/util.go:166-272 | for the GSC and pool pairs a second exchange restores the first state |
| Overlap.OverlapsNeverSettle | internal/controller/infrastructure/gardenershootcluster_controller.go:193-267 | for every n some interleaving sends 2n patches and leaves the pair in disagreement |
| Overlap.OneRound | internal/util/util.go:99-272 | a clean run in which every reconcile completes without being overtaken settles everything unless the backward annotation sync panics at the start |
| Overlap.TwoRounds | internal/util/util.go:99-272 | a clean run in which every reconcile completes twice without being overtaken leaves nothing to do in either direction, from any state |
| Overlap.InfraFirstWriterWins | internal/util/util.go:166-181 | both sides end with the infra fields of the side whose reconcile completes first |
| Overlap.ControlPlaneFirstWriterWins | internal/util/util.go:118-163 | both sides end with the values of the side that first completes without panicking; the two Shoot-only fields follow the Shoot as soon as it speaks |
| Overlap.PoolFirstWriterWins | internal/util/util.go:231-272 | the same for a pool and the worker of its name |
| Provenance.NothingOutOfThinAir | internal/util/util.go:118-272 | over any interleaving of reads, stale patches and edits each synchronised field, each field of a worker entry and the annotation show only what one side showed at the start or an edit introduced on that very field |
| Creation.GetWorkerPoolsForCluster | internal/controller/controlplane/gardenershootcontrolplane_controller.go:293-326 | the loop returns the ordered filter-map of matching, found pools, or an error |
| Creation.GatheredPoolsAreStored | internal/controller/controlplane/gardenershootcontrolplane_controller.go:304-323 | a pool is gathered exactly if it is stored under its name and a matching machine pool refers to it |
| Creation.PoolsComeInOrder | internal/controller/controlplane/gardenershootcontrolplane_controller.go:304-323 | the gathered pools stand in machine pool order, one for each machine pool that matches and is found; gathering fails exactly if a matching lookup breaks |
| Creation.ShootFromCapiResources | internal/util/util.go:28-89 | the Shoot is named after the Cluster in the project's namespace and carries every GSCP and GSC field; worker i matches pool i in name and all fields, and there are as many |
| Creation.CreateShoot | internal/controller/controlplane/gardenershootcontrolplane_controller.go:211-242 | when a Shoot is created and under which name, with a worker for each gathered pool in order; when the specs are incomplete; no worker exactly if the GSCP is workerless |
| Creation.CreationAgreesWithSync | internal/controller/controlplane/gardenershootcontrolplane_controller.go:221-241 | right after creation every reconcile in both directions is a no-op if and only if the GSCP has no operation annotation; with one the forward sync panics |
| Labels.ShootMeta.InjectReferenceLabels | internal/controller/controlplane/gardenershootcontrolplane_controller.go:486-519 | afterwards the labels name GSCP, GSC, the KCP cluster if there is one and every pool, and any other label is as it was |
| Labels.MapShootToPools | internal/controller/infrastructure/gardenerworkerpool_controller.go:310-359 | for any labels in any order: a pool is requested exactly if a label with the prefix, its name and the value true stands beside the namespace label, and once |
| Labels.SingleRequests | internal/controller/controlplane/gardenershootcontrolplane_controller.go:544-580 | for any labels: no request for GSCP or GSC without their namespace label; a missing name or KCP cluster label leaves that part empty |
| Labels.KeysAreApart | api/infrastructure/v1alpha1/gardenerworkerpool_types.go:15-24 | no fixed label key has the worker pool prefix |
| Labels.FixedKeysAreDistinct | api/controlplane/v1alpha1/gardenershootcontrolplane_types.go:14-21 | the eight fixed label keys are distinct |
| Labels.LabelRoundTrip | internal/controller/controlplane/gardenershootcontrolplane_controller.go:544-580 | mapping the labelled Shoot back recovers the GSCP, the GSC, the KCP cluster and exactly the named pools |
| Labels.PoolRequestsRecovered | internal/controller/infrastructure/gardenerworkerpool_controller.go:335-357 | the pool keys are recovered from among any labels without the prefix |
| Labels.OneNamespace | internal/controller/controlplane/gardenershootcontrolplane_controller.go:507-510 | for pools of one namespace the recovered keys are the pools' own |
| Deletion.RefusedCallsEndTheReconcile | internal/controller/controlplane/gardenershootcontrolplane_controller.go:143-385 | a call on an object that is missing, there already, going or changed since it was read changes nothing and ends the GSCP reconcile |
| Deletion.RefusedClusterCallsEndTheReconcile | internal/controller/cluster/cluster_controller.go:55-141 | the same for the Cluster reconcile |
| Deletion.ClusterReconcileStarts | internal/controller/cluster/cluster_controller.go:55-64 | whether the Cluster is going is read off the copy that carries the finalizer: the one read, or the answer to the patch |
| Deletion.ShootSafety | internal/controller/controlplane/gardenershootcontrolplane_controller.go:143-291 | while a Shoot or access Secret made by a controller exists its GSCP exists and carries the finalizer, in every run in which no finalizer is dropped while one is there or while the other controller will create one without a further version check |
| Deletion.HazardIsExact | internal/controller/controlplane/gardenershootcontrolplane_controller.go:155-170 | in any state of a careful run: an event can be continued carefully into an orphan if and only if it is such a drop |
| Deletion.OverlappingSyncsAreSafe | internal/controller/controlplane/gardenershootcontrolplane_controller.go:522-542 | overlapping syncs and overlapping deletions are safe; only a reconcile from before the deletion must not overlap one from after |
| Deletion.ClusterInvariantKept | internal/controller/cluster/cluster_controller.go:36-141 | every call, failed read, crash and user action outside the window keeps the invariant behind Cluster safety |
| Deletion.ClusterSafety | internal/controller/cluster/cluster_controller.go:55-123 | while a GSCP owned by a Cluster exists that Cluster exists and carries its finalizer, in every run in which no GSCP is created after the Cluster controller has looked for it and while it may let the Cluster go |
| Deletion.WindowIsExact | internal/controller/cluster/cluster_controller.go:73-123 | in any state of such a run: a GSCP created now can be left with an owner that is gone if and only if the window is open |
| Deletion.InterleavedControllersOrphanAShoot | internal/controller/controlplane/gardenershootcontrolplane_controller.go:155-170 | a run of calls that ends with a Shoot and no GSCP |
| Deletion.LateGscpIsOwnedByNobody | internal/controller/cluster/cluster_controller.go:97-123 | runs with a late GSCP that end with an owner that is gone, whether or not a Cluster of that name is back |
| DeletionProgress.Reconcile | internal/controller/controlplane/gardenershootcontrolplane_controller.go:83-209 | the reconcile method is the uninterrupted run of its API calls; the new server state and whether it is done, requeues or fails in every case |
| DeletionProgress.ReconcileDelete | internal/controller/controlplane/gardenershootcontrolplane_controller.go:244-291 | the same for the deletion path, with the whole new state |
| DeletionProgress.ReconcileTrace | internal/controller/controlplane/gardenershootcontrolplane_controller.go:83-291 | the API calls of an undisturbed reconcile of either GSCP controller, in their order, in every case |
| DeletionProgress.ReconcileTheInfra | internal/controller/infrastructure/gardenershootcluster_controller.go:51-135 | the GSC reconcile is the uninterrupted run of its API calls; finalizer and result in every case |
| DeletionProgress.ReconcileTheCluster | internal/controller/cluster/cluster_controller.go:36-141 | the Cluster reconcile is the uninterrupted run of its API calls; finalizer, deletions, owners and result in every case |
| DeletionProgress.FailedReadsKeepTheCluster | internal/controller/cluster/cluster_controller.go:73-105 | a Cluster reconcile that fails to read the GSCP or the GSC goes on but never lets the Cluster go |
| DeletionProgress.DeletionReconcile | internal/controller/controlplane/gardenershootcontrolplane_controller.go:244-291 | what a delete reconcile leaves, in both cases |
| DeletionProgress.DeletingClusterReconcile | internal/controller/cluster/cluster_controller.go:62-141 | what a reconcile of a deleted Cluster leaves |
| DeletionProgress.SoundKept | internal/controller/cluster/cluster_controller.go:107-141 | reconciles, Gardener and users keep a finalized GSC owned and what the controllers made guarded |
| DeletionProgress.FirstClusterTurn | internal/controller/cluster/cluster_controller.go:62-123 | the first reconcile of a deleted Cluster leaves everything on its way out or something that nobody will see to, according to what it finds |
| DeletionProgress.BlockedForever | internal/controller/controlplane/gardenershootcontrolplane_controller.go:107-118 | what nobody sees to stays, whatever the turns |
| DeletionProgress.DrainingShrinks | internal/controller/infrastructure/gardenershootcluster_controller.go:94-107 | while draining every turn changes nothing or lowers the rank |
| DeletionProgress.RoundShrinks | internal/controller/controlplane/gardenershootcontrolplane_controller.go:244-291 | every fair round makes progress until all is gone |
| DeletionProgress.DeletionCompletes | internal/controller/cluster/cluster_controller.go:62-105 | after a Cluster is deleted, fair rounds within Gardener's remaining teardown steps plus seven remove Shoot, Secret, GSCP, GSC and Cluster if and only if the server is in order at the first Cluster reconcile |
| DeletionProgress.FromSoundToGone | internal/controller/cluster/cluster_controller.go:36-141 | from any sound server through any mix of reconciles and user actions to a deleted Cluster: everything goes away if and only if the pause flag holds up no finalizer and no Shoot of the users' own stands without a held GSCP |
| DeletionProgress.UnownedInfraIsStuck | internal/controller/infrastructure/gardenershootcluster_controller.go:71-121 | a run of calls after which a finalized, unowned GSC is never released, whatever the turns |
| Initialized.ControlPlaneReady | internal/controller/controlplane/gardenershootcontrolplane_controller.go:474-484 | true exactly if some control plane health condition is true |
| Initialized.ComputeInitialized | internal/controller/controlplane/gardenershootcontrolplane_controller.go:463-465 | the flag is set exactly if it was or some control plane health condition is true |
| Initialized.StatusUpdateSetsTheFlag | internal/controller/controlplane/gardenershootcontrolplane_controller.go:457-472 | an update from a current copy leaves the flag set exactly if it was or the conditions are healthy; one from an older copy changes nothing |
| Initialized.FlagIsSetByAHealthyUpdate | internal/controller/controlplane/gardenershootcontrolplane_controller.go:457-472 | in any run of one object the flag goes up exactly if some accepted status update reports a healthy control plane |
| Initialized.HealthyShootGetsItsEndpoint | internal/controller/controlplane/gardenershootcontrolplane_controller.go:172-206 | an undisturbed prioritized reconcile of a healthy Shoot leads from any GSCP to the flag and to the endpoint the Shoot advertises; of another it changes neither |
| Initialized.ForwardReconcileSetsTheEndpoint | internal/controller/controlplane/gardenershootcontrolplane_controller.go:182-206 | an undisturbed forward reconcile sets the advertised endpoint exactly if the control plane is initialized |
| Initialized.EndpointPatchSetsTheAddress | internal/controller/controlplane/gardenershootcontrolplane_controller.go:328-347 | the patch leaves the address that was read, unless the copy had it, and touches nothing else |
| Initialized.EndpointWasAdvertised | internal/controller/controlplane/gardenershootcontrolplane_controller.go:328-347 | in any run the endpoint is an address that the Shoot advertised |
| Initialized.EndpointImpliesInitialized | internal/controller/controlplane/gardenershootcontrolplane_controller.go:172-200 | with copies of any age an endpoint implies an initialized control plane, also across replacements of the GSCP at which no reconcile has an endpoint to set on the strength of an initialized copy of the old one |
| Initialized.InitializedIsForever | internal/controller/controlplane/gardenershootcontrolplane_controller.go:457-472 | with copies of any age the flag of one object never goes from true to false |
| Initialized.WritesPutCopiesOutOfDate | internal/controller/controlplane/gardenershootcontrolplane_controller.go:457-472 | exactly the writes raise the version: they put every other copy out of date and refresh the writer's |
| Initialized.RecreationIsExact | internal/controller/controlplane/gardenershootcontrolplane_controller.go:328-347 | in any valid state: replacing the GSCP can give an uninitialized one an endpoint if and only if a reconcile trusts an initialized copy that lacks the address it has read or may yet read |
| Initialized.ReplacementDuringForwardSync | internal/controller/controlplane/gardenershootcontrolplane_controller.go:328-347 | for a forward sync that has just read an initialized GSCP a replacement is harmless exactly if it carries the one address the Shoot can advertise |
| Kubeconfig.DecimalRoundTrip | internal/controller/controlplane/gardenershootcontrolplane_controller.go:382-393 | every 64-bit number written in decimal parses back |
| Kubeconfig.AtoiReadsDecimals | internal/controller/controlplane/gardenershootcontrolplane_controller.go:393-396 | a string reads as a number exactly if it is an optional sign and decimal digits, read from the front, within 64 bits |
| Kubeconfig.FormatIsDecimal | internal/controller/controlplane/gardenershootcontrolplane_controller.go:382-382 | what is written is decimal without leading zeros |
| Kubeconfig.SecretStore.IsKubeConfigValid | internal/controller/controlplane/gardenershootcontrolplane_controller.go:388-399 | valid exactly if a readable validity lies past the margin; an error exactly if it is unreadable |
| Kubeconfig.SecretStore.ReconcileShootAccess | internal/controller/controlplane/gardenershootcontrolplane_controller.go:349-386 | when an access reconcile fails, keeps or renews, and the whole Secret afterwards: on a renewal the kubeconfig it was given and 6000 seconds past its date |
| Kubeconfig.SuccessIsValid | internal/controller/controlplane/gardenershootcontrolplane_controller.go:349-386 | a success at time t leaves a stored validity beyond t+300; a failure loses nothing |
| Kubeconfig.InterleavedSuccess | internal/controller/controlplane/gardenershootcontrolplane_controller.go:349-399 | in any interleaving a check that succeeds at time t leaves a stored validity beyond t+300, an accepted update one of 6000 seconds from its signature, and no call shortens it |
| Kubeconfig.UpdateStoresTheKubeconfig | internal/controller/controlplane/gardenershootcontrolplane_controller.go:380-385 | an accepted update stores the kubeconfig of its own request with its own date |
| Kubeconfig.KubeconfigAndDateBelongTogether | internal/controller/controlplane/gardenershootcontrolplane_controller.go:349-386 | in any interleaving the Secret is as at the start, or empty, or holds kubeconfig and date of one and the same signature of the run |
| Kubeconfig.FlightIsAccess | internal/controller/controlplane/gardenershootcontrolplane_controller.go:349-386 | the calls of one undisturbed reconcile have the effect of the access reconcile as a whole |
| Kubeconfig.RenewalsAreSpaced | internal/controller/controlplane/gardenershootcontrolplane_controller.go:349-399 | however the calls of any number of access reconciles interleave, two successive renewals are at least 5700 seconds apart and the last one is what the Secret says |
| Kubeconfig.RenewalBound | internal/controller/controlplane/gardenershootcontrolplane_controller.go:48-48 | in any interleaving at most 1 + D/5700 renewals fall into any window of D seconds |
| Kubeconfig.UnreadableIsStuck | internal/controller/controlplane/gardenershootcontrolplane_controller.go:393-396 | an unreadable validity is never repaired, whatever the interleaving |
| ProviderIds.PoolStatus.UpdateStatus | internal/controller/infrastructure/gardenerworkerpool_controller.go:232-263 | whatever was stored before, the list is rebuilt from the nodes, readiness is length against minimum, replicas is the length if it fits an int32 and congruent to it modulo 2^32 otherwise; a refused write leaves it and the later ones undone |
| ProviderIds.NodesAreCountedOnce | internal/controller/infrastructure/gardenerworkerpool_controller.go:239-247 | with distinct names the lists together hold each node carrying one of the names exactly once, so no more than there are nodes |
| ProviderIds.ReplicasAreCountedOnce | internal/controller/infrastructure/gardenerworkerpool_controller.go:239-261 | with distinct names the reported replicas of all pools add up to the number of nodes that carry one of the names |
| ProviderIds.IdsAreTheOrderedSelection | internal/controller/infrastructure/gardenerworkerpool_controller.go:239-247 | the list is the complete, ordered selection of the nodes with the label |

## Left out

- PatchShoot: a field is replaced as a whole; merging inside a field and re-adding a worker entry that somebody removed meanwhile are not modelled.
- ShootSafety: the conditions are not enforced by the code; reads from a lagging cache and Kubernetes' own garbage collection of owned objects are not modelled.
- FromSoundToGone: the mix before the rounds consists of uninterrupted reconciles; `DeletionCompletes` says what any other server leads to.
- OverlapsNeverSettle: for the GSCP pair the allowed annotation is taken to agree; otherwise a panic may end the exchange.
- NothingOutOfThinAir: where a value came from is not tracked through later edits that remove it.
- RenewalBound: whole seconds only; what the kubeconfig contains is opaque.
- UpdateStatus: getting the node list with the kubeconfig of the Secret is a parameter.
- InitializedIsForever: `Status.Ready` and the copied Shoot status are recomputed at will and carry no promise.
- The Cluster's phase and conditions: the same reconcile that sets the phase to deleting may overwrite it.
- Seed readiness, Shoot status computation, owner reference comparison and the GSCP defaulter: single-branch facts or calls into other libraries.
- The validating webhooks and the machine pool controller: they reuse the sync functions or only set owner references.
- Network clients, KCP discovery, manager and flag wiring, logging, events and metrics.
