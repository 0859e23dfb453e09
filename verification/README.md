# Verification of Primaza

This project models the controllers of Primaza in Dafny and proves what they keep and where they stop keeping it.
`dafny verify dfyconfig.toml` checks everything.

Remote calls are the points where things go wrong. A call may fail before or after it had its effect, and between
two calls other controllers act. Where objects are shared, a write carries the version that was read and lands
only if that version is current. The classes count the calls that fail in a ghost field, so that a method is proved
to succeed exactly when none of its calls fails. Where a result needs a condition, the condition is proved to be
exact for the input or the step that it is about.

- **Claim protocol** (`ClaimMachine`, `ClaimExclusivity`, `ClaimTheorems`, `ClaimSharing`, `ClaimReconciler`,
  `ClaimFinalizer`; `Selection`, `EnvTag`): claims and registered services as version histories, one worker per
  claim with a program counter and versions it read, however old. `ClaimMachine` has the steps; the methods of
  `ClaimReconciler` and `ClaimFinalizer` follow the code and can only take those steps. Everything is proved for
  one service at a time, without HealthCheck. Only the deletion of a claim can break exclusivity of that service,
  and exactly when it frees the service while a claim relies on it; `ClaimSharing` has runs in which it does.
- **Endpoint definitions** (`Endpoints`): how the service agent splits values into items and a descriptor secret
  and how the control plane puts them together again.
- **Catalogs** (`CatalogMachine`, `CatalogIndex`, `CatalogTheorems`, `CatalogReconciler`): catalogs as an index
  over the services, kept entry by entry and also built from scratch. Two races make the index wrong until the
  next event or resync: a catalog created from an old listing, and a reconcile that lists catalogs from a cache
  that is behind. Both have a run that shows them, a step keeps the index invariant if and only if it loses
  neither, and the index theorem is about the runs in which neither is lost.
- **Workload projection** (`RangeDelete`, `Projection`, `BindingLaws`, `BindingConfluence`, `BindingOrder`,
  `BindingRoots`): binding and unbinding edit volumes, mounts and variables in place, and unbinding deletes from
  slices while it ranges over them, which can run out of bounds.
- **Bound workloads** (`Finalization`, `BindingReconciler`): the list of connections, which each bind resets, and
  what finalizing a binding releases.
- **Namespaces** (`NamespaceMachine`, `NamespaceTheorems`, `NamespaceReconciler`): agents and role bindings,
  created under one name and deleted under another, over the names that the API server admits.
- **Deletion of pushed bindings** (`ClaimDeletion`), **informers** (`Informers`; `RunSvcInformers` and
  `RunAppInformers` keep their maps in the same way, and one class stands for both), **admission** of service
  classes (`Admission`) and the report of **excess permissions** (`Permissions`, where the nested loops are one method each).
- `Runs`, `Slices` and `Wrappers` are shared.

Where the code differs from what its comments and names suggest, the model follows the code: the rollback of a
failed claim conflicts, claim deletion frees the first matching service, role bindings are not found under the
name they are deleted by, every run of the informers stops those of other environments, and unbinding drops
every literal variable.

## Model

| member | source | states |
|---|---|---|
| `ClaimTheorems.Exclusivity` | controllers/serviceclaim_controller.go:316-543 | in every reachable world of every interleaving whose claim deletions never free this service from a claim that relies on it, a live claim that is Resolved to the service, which has no HealthCheck, finds it Claimed, and no other live claim is Resolved to it |
| `ClaimTheorems.RunKeepsInv` | controllers/serviceclaim_controller.go:316-543 | the inductive invariant, that whoever relies on the service owns it, holds all along every such run |
| `ClaimExclusivity.StepKeepsInvExactlyWhen` | controllers/serviceclaim_controller.go:316-543 | a call of a worker or an event keeps that invariant if and only if it is not the deletion of a claim that frees the service while some claim relies on it, whether writes land or conflict |
| `ClaimExclusivity.KeepWriteService` | controllers/serviceclaim_controller.go:260-267 | the write that marks the service keeps the invariant; at a version that is still current the claim owns the service afterwards, at an older one nothing is written and the worker gives up |
| `ClaimExclusivity.KeepWriteResolved` | controllers/serviceclaim_controller.go:386-402 | a claim becomes Resolved only to a service that it owns |
| `ClaimExclusivity.KeepWriteRollback` | controllers/serviceclaim_controller.go:527-535 | a rollback never frees the service of another claim |
| `ClaimExclusivity.ServiceEventKeepsInv` | controllers/registeredservice_controller.go:408-441 | the service reconciler, from however stale a read, disturbs no claim of a service without HealthCheck |
| `ClaimTheorems.ReleaseSafety` | controllers/serviceclaim_controller.go:364-375 | a step takes such a service out of Claimed if and only if it is the rollback, at a current version, of the Resolved claim that owns it, or the finalizer write of a deleted claim |
| `ClaimTheorems.WorkReleases` | controllers/serviceclaim_controller.go:527-535 | the same for the calls of the workers |
| `ClaimTheorems.FreshRollbackConflicts` | controllers/serviceclaim_controller.go:260-267 | after a failed push of a Pending claim the rollback carries the version from before the claim, because the service is passed by value, so it conflicts and changes nothing |
| `ClaimTheorems.FailedPushLeaks` | controllers/serviceclaim_controller.go:527-535 | that failed push leaves the service Claimed for a claim that can no longer use or free it |
| `ClaimTheorems.LeakSurvivesExactlyWhen` | controllers/serviceclaim_controller.go:404-543 | a step leaves a lost service lost if and only if it is not the deletion of a claim that frees it |
| `ClaimTheorems.LostExactlyUntilFreed` | controllers/serviceclaim_controller.go:404-543 | over every continuation, with any deletions, a lost service stays Claimed if and only if the deletion of no claim frees it, and until then no live claim is Resolved to it |
| `ClaimTheorems.FailedPushLosesService` | controllers/serviceclaim_controller.go:527-535 | from the rollback after a failed push of a Pending claim on, the service stays Claimed if and only if the deletion of no claim frees it |
| `ClaimTheorems.RollbackOutcome` | controllers/serviceclaim_controller.go:364-375 | how any rollback leaves its service: freed if it is on the path of a Resolved claim and its version is still current, lost otherwise |
| `ClaimFinalizer.ChoiceIsSafeExactlyWhen` | controllers/serviceclaim_controller.go:178-199 | deleting a claim frees the first listed service that suits; whoever relies on that service keeps it if and only if the write conflicts or no other claim relies on it, and so whenever it is the service that the deleted claim still holds |
| `ClaimTheorems.OwnServiceIsFaithful` | controllers/serviceclaim_controller.go:194-199 | freeing the service that the deleted claim still holds takes it from nobody |
| `ClaimTheorems.UnfaithfulDeletionSharesService` | controllers/serviceclaim_controller.go:178-199 | when a deletion frees a service that a live claim is Resolved to, any waiting claim can take it, and two live claims are Resolved to it |
| `ClaimSharing.DeletionSharesService` | controllers/serviceclaim_controller.go:178-199 | a run from the start: two services suit two claims, deleting one claim frees the service of the other, which is listed first, and a third claim ends up Resolved to the same service |
| `ClaimSharing.RetriedDeletionSharesService` | controllers/serviceclaim_controller.go:178-199 | a run with one service: a deletion that is tried again frees it a second time, when another claim has it already |
| `ClaimFinalizer.ProcessClaimMarkedForDeletion` | controllers/serviceclaim_controller.go:167-202 | the service that is freed is the first suiting one of the listing, and is Available at the end of a deletion without an error; it succeeds exactly when no call fails and every list could be read, and then no deletion target keeps a binding, unless the listing of ClusterEnvironments was not found |
| `ClaimReconciler.ControlPlane.MarkClaimPending` | controllers/serviceclaim_controller.go:386-402 | the status write with its remote copy succeeds exactly when no call fails; then the claim was written as Pending with its service, at the version that was read, and the worker goes on with the same plan; on any failure it is idle |
| `ClaimReconciler.ControlPlane.MarkServiceClaimed` | controllers/serviceclaim_controller.go:260-267 | it succeeds exactly when no call fails; then the service is Claimed, written at the version that was read; otherwise the attempt ends |
| `ClaimReconciler.ControlPlane.PushToClusterEnvironments` | controllers/serviceclaim_controller.go:610-661 | success, exactly when no call fails, leads to resolving, failure to rolling back |
| `ClaimReconciler.ControlPlane.RollBackService` | controllers/serviceclaim_controller.go:527-535 | the service is freed exactly if it is on the path of a Resolved claim and its version is still current, and lost otherwise |
| `ClaimReconciler.ControlPlane.MarkClaimResolved` | controllers/serviceclaim_controller.go:386-402 | it succeeds exactly when no call fails; then the claim is Resolved to its service, written at the version that was read, and holds it |
| `ClaimReconciler.ProcessServiceClaim` | controllers/serviceclaim_controller.go:404-543 | how it ends is told exactly: no match if nothing selectable is listed; for the first selectable service a crash if an item has neither value nor secret, missing keys if there are more than values collected, and otherwise the attempt begins on the version that was read and ends Done exactly when no call fails, after marking the claim, marking the service, pushing and resolving in this order; then the claim is Resolved to the service and holds it, and its secret is complete; after a failed push the service is lost |
| `ClaimReconciler.ProcessResolvedServiceClaim` | controllers/serviceclaim_controller.go:316-384 | it crashes exactly on an item with neither value nor secret; otherwise the attempt begins on the version that was read and ends Done exactly when no call fails, with the claim Resolved to the service and holding it; after a failed push the service is freed if its version is still current, and lost otherwise; the count of keys is not looked at |
| `Selection.CheckSCISubset` | controllers/serviceclaim_controller.go:205-222 | counting occurrences down in a map decides multiset inclusion |
| `Selection.SelectService` | controllers/serviceclaim_controller.go:436-458 | the chosen service is the first listed one that is Available, includes the identity of the claim and admits its environment; every service before it, or every one if none is chosen, lacks one of these |
| `Selection.MatchForDeletion` | controllers/serviceclaim_controller.go:178-187 | the choice of a claim deletion: the first listed service that includes the identity and admits the environment, in whatever state |
| `EnvTag.Match` | pkg/envtag/envtag.go:32-47 | the loop with its early return decides the order-independent condition: no constraint, or none is `!` and the environment and some one is the environment or begins with `!` |
| `EnvTag.AdmitsIgnoresOrder` | pkg/envtag/envtag.go:32-65 | order and repetition of constraints never matter |
| `Slices.Subtract` | pkg/slices/slices.go:20-36 | set difference as a list without duplicates |
| `Endpoints.ExtractServiceEndpointDefinition` | controllers/serviceclaim_controller.go:224-258 | the loop crashes exactly on an item with neither value nor secret; otherwise, with distinct names, each requested name has its inline value, or what the fetched secret has under the key that the item refers to, empty if it lacks it, and every other name is as before |
| `Endpoints.CountCheckMeansComplete` | controllers/serviceclaim_controller.go:479-504 | with distinct endpoint names, passing the count check means that the keys are distinct and all of them are in the secret, also after identity values override entries |
| `Endpoints.CompleteExactlyWhenCounted` | controllers/serviceclaim_controller.go:479-489 | the count check passes if and only if the keys are distinct and each was collected |
| `Endpoints.CountsContributors` | controllers/serviceclaim_controller.go:224-258 | the counter is the number of distinct names collected |
| `Endpoints.ExtractedKeys` | controllers/serviceclaim_controller.go:224-258 | the secret holds exactly those names, on top of what it held |
| `Endpoints.OverrideWithIdentity` | controllers/serviceclaim_controller.go:490-504 | identity values are added last: for each name the value of its last item is in the secret |
| `Endpoints.LookupServiceEndpointDescriptor` | controllers/agents/svc/serviceclass_controller.go:329-366 | it succeeds exactly when every value was read; then inline values are in their items, each secret one is in the descriptor, which is named after the service, and its item refers to that descriptor by name |
| `Endpoints.RoundTrip` | controllers/agents/svc/serviceclass_controller.go:329-366 | storing the values of a service and extracting a duplicate-free choice of names, where fetching gives the descriptor only to references that name it, gives back exactly their values and counts them, if and only if no inline value is empty and the empty name is not requested from the secret |
| `Endpoints.UnstorableIsLost` | controllers/agents/svc/serviceclass_controller.go:329-366 | otherwise the extraction crashes or leaves a requested name out |
| `CatalogIndex.RunKeepsIndex` | controllers/registeredservice_controller.go:381-448 | over every timely run of service events, reconciles, catalog creations, deletions and failed writes, entry names stay distinct and every service with nothing outstanding is listed in exactly the catalogs where it is Available and its constraints match |
| `CatalogIndex.QuietCatalogsAreExact` | controllers/registeredservice_controller.go:131-191 | with nothing outstanding each catalog holds exactly the names of the services that are Available and have no constraints or admit its environment |
| `CatalogIndex.StepKeepsInvExactlyWhen` | controllers/registeredservice_controller.go:87-191 | a call or event keeps the index invariant if and only if it loses neither of two races: a reconcile that reads the current service and will not come back begins with a listing of catalogs that caught up as far as it matters, and a catalog is created from a listing of services that is still right or will be put right |
| `CatalogTheorems.ReconcileIndexesExactlyWhen` | controllers/registeredservice_controller.go:381-448 | a reconcile of a service as it currently is, ended without an error and with nothing queued for it, leaves it in exactly the right catalogs if and only if its listing of catalogs had caught up, whatever others did in between short of creating or deleting catalogs |
| `CatalogIndex.VisitSettles` | controllers/registeredservice_controller.go:87-191 | a visit that does not fail changes nothing about which catalogs the reconcile gets right |
| `CatalogIndex.KeepVisited` | controllers/registeredservice_controller.go:87-191 | visiting one catalog of a reconcile puts its service right there, or the reconcile remembers that it failed |
| `CatalogIndex.KeepOthers` | controllers/registeredservice_controller.go:87-191 | editing one entry of one catalog moves no entry of another service |
| `CatalogIndex.KeepOnFinish` | controllers/registeredservice_controller.go:408-448 | a reconcile that ends without requeueing left its service right in every catalog |
| `CatalogIndex.KeepOnCreate` | controllers/clusterenvironment_controller.go:754-797 | creating a catalog keeps what holds for a service if and only if the listing is right about it or it will be put right |
| `CatalogIndex.FromScratchLists` | controllers/clusterenvironment_controller.go:754-797 | a catalog made from scratch lists exactly the eligible services; its own test for absent constraints makes no difference |
| `CatalogTheorems.CreationAgreesExactlyWhen` | controllers/clusterenvironment_controller.go:754-797 | creating a catalog keeps the index if and only if the listing it was made from is still right about every service at rest |
| `CatalogTheorems.LateCreationLosesService` | controllers/clusterenvironment_controller.go:754-797 | a run in which a service is reconciled between listing and creation: nothing is outstanding and it is missing |
| `CatalogTheorems.StaleListingLosesService` | controllers/registeredservice_controller.go:55-65 | a run in which a reconcile lists the catalogs from a cache that is behind: no error, and its service is missing |
| `CatalogTheorems.IncrementalRefinesFromScratch` | controllers/registeredservice_controller.go:131-191 | reconciling every service once, in any order, from any catalog with distinct names and no absent service, gives the names of a catalog made from scratch if and only if reconciling changes the availability of no admitted service |
| `CatalogTheorems.SameEntriesFromEmpty` | controllers/clusterenvironment_controller.go:754-797 | from an empty catalog both give the same list of entries |
| `CatalogTheorems.QuietCatalogsSayWhatServicesSay` | controllers/registeredservice_controller.go:163-191 | as long as no service is edited, a quiet catalog holds exactly the entries of its Available and admitting services with their contents |
| `CatalogReconciler.ServiceInCatalog` | controllers/registeredservice_controller.go:46-53 | the index of the first entry of the name, and cutting there removes it; -1 exactly when it is not listed |
| `CatalogReconciler.HandleHealthcheck` | controllers/registeredservice_controller.go:268-326 | Unknown without a CronJob; otherwise a job of its own whose first deciding condition is Complete outweighs failed ones, whatever the order, and keeps a Claimed service Claimed and makes any other Available; without one a failed job makes it Unreachable, and none Unknown |
| `CatalogReconciler.ControlPlane.AddServiceToCatalog` | controllers/registeredservice_controller.go:163-191 | a wanted service that the listed catalog lacks is appended to that very version of it, or the failure is remembered; nothing is written when it is listed |
| `CatalogReconciler.ControlPlane.RemoveServiceFromCatalog` | controllers/registeredservice_controller.go:87-129 | an unwanted service that is listed is cut out of that very version, or the failure is remembered |
| `CatalogReconciler.ControlPlane.ReconcileCatalogs` | controllers/registeredservice_controller.go:131-161 | every listed catalog is visited, and the outcome is an error if and only if one visit failed |
| `CatalogReconciler.ControlPlane.Reconcile` | controllers/registeredservice_controller.go:381-448 | from any listing and however it ends, an error queues the service again, and as long as no race was lost the service is queued again or listed in exactly the right catalogs; without a failing call the service has the state that its HealthCheck gives, or without one Claimed if it was Claimed and Available otherwise, and nothing else of it changed |
| `CatalogReconciler.ControlPlane.EndReconcile` | controllers/registeredservice_controller.go:408-448 | the status write at the version that was read puts the computed state into the service and changes nothing else of it; a conflict changes no service |
| `CatalogReconciler.EntriesFromScratch` | controllers/clusterenvironment_controller.go:754-797 | the loop builds the entries of the eligible services in the order of the listing |
| `CatalogReconciler.ControlPlane.CreateServiceCatalog` | controllers/clusterenvironment_controller.go:754-797 | a created catalog lists what the listing says, which is right for every service at rest as long as no race was lost; an existing one is left alone |
| `RangeDelete.DeleteWhileRanging` | controllers/agents/app/servicebinding_controller.go:603-613 | deleting from a slice while ranging over it, on the shared backing array: panics exactly when the last element matches and an earlier one did, and leaves a closed-form rest |
| `RangeDelete.SurvivorsIsFilter` | controllers/agents/app/servicebinding_controller.go:603-613 | that rest is the filtered list if and only if no two neighbours match |
| `RangeDelete.DeletesExactlyMatching` | controllers/agents/app/servicebinding_controller.go:649-653 | the loop is in bounds and is a filter when at most one element matches |
| `Projection.RemoveServiceBindingEnvironments` | controllers/agents/app/servicebinding_controller.go:502-511 | only references to other secrets are kept, as often as they were there and in order; literals go |
| `Projection.UpdateContainer` | controllers/agents/app/servicebinding_controller.go:513-592 | field by field: the kept variables, then each variable of the binding with its key of the secret, then SERVICE_BINDING_ROOT as `/bindings` if none of these is named so, and the mount of the binding below it, or at its bare name, in place of the first one of that name |
| `Projection.UpdateContainerInfo` | controllers/agents/app/servicebinding_controller.go:513-592 | in place, every container of the list is replaced by that bound form |
| `Projection.PrepareContainerWithMounts` | controllers/agents/app/servicebinding_controller.go:243-322 | the whole workload is bound: every container and init container by fields, and the volume of the binding with its secret, not optional and with mode 0444, in place of the first one of that name |
| `Projection.RemoveBindingInformationFromContainer` | controllers/agents/app/servicebinding_controller.go:594-625 | in place, every container is unbound; false exactly when a loop runs out of bounds |
| `Projection.RemoveVolumeMountAndEnvironment` | controllers/agents/app/servicebinding_controller.go:627-691 | the whole workload is unbound; nothing is done without a list of volumes |
| `BindingLaws.BindIsFixpoint` | controllers/agents/app/servicebinding_controller.go:243-322 | binding a bound workload again changes nothing, element for element and in order |
| `BindingLaws.BindContainerTwice` | controllers/agents/app/servicebinding_controller.go:513-592 | the same for one container |
| `BindingLaws.UnbindUndoesBind` | controllers/agents/app/servicebinding_controller.go:627-691 | unbinding after binding restores the workload if and only if every variable referred to another secret and none was SERVICE_BINDING_ROOT, no volume or mount had the name of the binding, and the variables of the binding cannot make the removal panic |
| `BindingLaws.UnbindContainerUndoesBind` | controllers/agents/app/servicebinding_controller.go:594-625 | the same for one container |
| `BindingConfluence.Confluence` | controllers/agents/app/servicebinding_controller.go:243-322 | if all or none of the bindings declare SERVICE_BINDING_ROOT, any two runs in which each binding occurs give the same variables, mounts and volumes up to order |
| `BindingConfluence.EveryBindingIsProjected` | controllers/agents/app/servicebinding_controller.go:243-322 | and every binding of the run is fully projected, whichever came later: each variable refers to its key of the secret of the binding, as often as requested and no other one refers to that secret, and its volume, its mount and the root directory are there |
| `BindingConfluence.AfterRun` | controllers/agents/app/servicebinding_controller.go:513-592 | what a run leaves is told from the set of bindings in it alone |
| `BindingOrder.OrderFreeExactlyWhen` | controllers/agents/app/servicebinding_controller.go:534-566 | the order of bindings is irrelevant if and only if all or none of them declare SERVICE_BINDING_ROOT |
| `BindingOrder.MixedOrdersDiffer` | controllers/agents/app/servicebinding_controller.go:534-566 | otherwise two orders mount the same binding in different places |
| `Finalization.ReleasesExactlyWhen` | controllers/agents/app/servicebinding_controller.go:594-691 | unbinding a workload does not panic and leaves no volume, mount or secret reference of the binding if and only if the volumes and mounts of its name can be deleted while ranging and in no container the last variable and an earlier one are SERVICE_BINDING_ROOT |
| `Finalization.PanicsExactlyWhen` | controllers/agents/app/servicebinding_controller.go:594-691 | unbinding panics if and only if the last element of a list matches and an earlier one does |
| `Finalization.UnbindIsRelease` | controllers/agents/app/servicebinding_controller.go:594-691 | where every list can be deleted from, what is left is the filtered lists, in order, without literals |
| `Finalization.ReleasableAfterBind` | controllers/agents/app/servicebinding_controller.go:513-625 | a workload can be released after a bind if and only if its volumes and mounts of the name can be deleted and the variables that are kept and projected do not end in a second SERVICE_BINDING_ROOT |
| `BindingRoots.AlwaysReleasableExactlyWhen` | controllers/agents/app/servicebinding_controller.go:513-625 | whatever bindings of a set were bound, in any order and number, unbinding any of them does not panic and leaves nothing of it, if and only if a binding whose last variable is SERVICE_BINDING_ROOT is the only one that declares it, and does so once |
| `BindingRoots.TwoRootsPanic` | controllers/agents/app/servicebinding_controller.go:611-615 | after two bindings that declare SERVICE_BINDING_ROOT, the second as its last variable, unbinding anything from the container panics |
| `BindingRoots.SmallestPanic` | controllers/agents/app/servicebinding_controller.go:611-615 | the smallest such input: an empty container and two bindings of one variable |
| `Finalization.OtherUnbindKeeps` | controllers/agents/app/servicebinding_controller.go:594-625 | of another binding, unbinding takes nothing but variables named SERVICE_BINDING_ROOT |
| `Finalization.LeavesNothingExactlyWhen` | controllers/agents/app/servicebinding_controller.go:167-179 | unbinding the connections does not panic and leaves nothing of the binding anywhere if and only if every bound workload is among them and each of them is releasable |
| `Finalization.BindTracksExactlyWhen` | controllers/agents/app/servicebinding_controller.go:324-352 | a bind makes Connections complete if and only if nothing outside of its workloads was bound |
| `Finalization.BindThenFinalizeExactlyWhen` | controllers/agents/app/servicebinding_controller.go:324-352 | binding some workloads and finalizing does not panic and releases every workload if and only if no other one was bound and these were bindable |
| `BindingReconciler.ServiceBindingAgent.BindApplications` | controllers/agents/app/servicebinding_controller.go:324-352 | Connections is reset to exactly the workloads of the call, bound or not, unless the status write fails; no more workloads are missed than calls failed, and without a failing call all of them are bound and no other workload changed |
| `BindingReconciler.ServiceBindingAgent.UnbindApplications` | controllers/agents/app/servicebinding_controller.go:693-710 | only the given workloads change; it panics exactly when unbinding one of them does, and otherwise no more are missed than calls failed |
| `BindingReconciler.ServiceBindingAgent.GetBoundApplications` | controllers/agents/app/servicebinding_controller.go:405-445 | no error exactly when no call failed and all connections exist, and then all were read |
| `BindingReconciler.ServiceBindingAgent.FinalizeServiceBinding` | controllers/agents/app/servicebinding_controller.go:167-179 | only workloads in Connections change; it is Done exactly when no call fails, they all exist and none panics; then nothing is left anywhere if and only if Connections was complete and every workload in it releasable |
| `BindingReconciler.ServiceBindingAgent.ReconcileDeleted` | controllers/agents/app/servicebinding_controller.go:96-112 | Done means that the finalizer is gone, and it is Done exactly when no call fails, all connections exist and none panics; the finalizer goes only after such a finalization |
| `BindingReconciler.ServiceBindingAgent.ReconcileSelected` | controllers/agents/app/servicebinding_controller.go:83-165 | with the secret it is Done exactly when no call fails; then the selected workloads are bound, and Connections is complete if and only if no other one was bound; without the secret the workloads are unbound |
| `BindingReconciler.ServiceBindingAgent.OnWorkloadEvent` | controllers/agents/app/servicebinding_controller_informers.go:160-193 | an event of one workload that ends without a failing call binds it and makes it the only connection, so that Connections is complete if and only if no other workload was bound |
| `BindingReconciler.ServiceBindingAgent.OnWorkloadDeleted` | controllers/agents/app/servicebinding_controller_informers.go:195-240 | a deleted workload is dropped from Connections and nothing else |
| `BindingReconciler.ServiceBindingAgent.OtherBindingActs` | controllers/agents/app/servicebinding_controller.go:243-322 | another binding changes its workload and leaves Connections of this one complete |
| `NamespaceTheorems.AuthorizedExactlyWhen` | pkg/primaza/controlplane/namespaces_unbinder.go:132-149 | over every history with any failures each agent keeps a role binding with its labels, if and only if no admissible names of namespaces make two names clash among those created and deleted for the environments |
| `NamespaceMachine.CompletableExactlyWhen` | pkg/primaza/controlplane/agents.go:38-41 | two prefixes can be completed to one name by admissible namespaces if and only if one is a prefix of the other and the rest can begin a namespace |
| `NamespaceTheorems.OneEnvironmentClear` | pkg/primaza/controlplane/agents.go:38-41 | for one environment they clash if and only if its name with a dash is `claimer-`, or `reporter-`, over and over |
| `NamespaceTheorems.LeakStays` | pkg/primaza/controlplane/namespaces_reconciler.go:117-156 | an agent that lost its role binding is never unbound unless its namespace is bound again |
| `NamespaceMachine.StepKeepsInv` | pkg/primaza/controlplane/namespaces_binder.go:147-174 | with clear names every call keeps the role binding of every agent |
| `NamespaceMachine.DeletionMisses` | pkg/primaza/controlplane/namespaces_unbinder.go:147-149 | with clear names the deletion of a role binding never hits one |
| `NamespaceReconciler.Clusters.BindNamespace` | pkg/primaza/controlplane/namespaces_binder.go:115-134 | an agent is pushed only once its role binding is there; exactly when no call fails it is whole and its role binding has the name made of role, environment and namespace |
| `NamespaceReconciler.Clusters.BindNamespaces` | pkg/primaza/controlplane/namespaces_binder.go:98-113 | only requested agents are added; no more of them are not whole than calls failed |
| `NamespaceReconciler.Clusters.GetAuthorizedNamespaces` | pkg/primaza/controlplane/namespaces_reconciler.go:137-156 | the namespaces on the labels are those with a role binding |
| `NamespaceReconciler.Clusters.UnbindNamespace` | pkg/primaza/controlplane/namespaces_unbinder.go:110-130 | exactly when no call fails both parts of the agent are gone and nothing else is, and the role binding of the name without the role was deleted |
| `NamespaceReconciler.Clusters.UnbindNamespaces` | pkg/primaza/controlplane/namespaces_unbinder.go:92-108 | only the given agents go; no more of them are left than calls failed |
| `NamespaceReconciler.Clusters.UnbindOrphanNamespacesForType` | pkg/primaza/controlplane/namespaces_reconciler.go:117-126 | only agents outside of the requested namespaces go, all of them exactly when no call fails |
| `NamespaceReconciler.Clusters.ReconcileNamespaces` | pkg/primaza/controlplane/namespaces_reconciler.go:85-101 | whatever failed before, a call succeeds exactly when none of its own calls fails, and leaves whole agents of each kind in exactly the requested namespaces; otherwise no more requested agents are not whole than calls failed; no call touches another environment |
| `NamespaceReconciler.Clusters.Serve` | pkg/primaza/controlplane/namespaces_reconciler.go:85-101 | the same after any history of calls for any environments |
| `NamespaceReconciler.Clusters.FinalizeInNamespaces` | controllers/clusterenvironment_controller.go:799-826 | with the empty lists of the finalizer no agent of the environment is left |
| `NamespaceReconciler.OrphansAreListed` | pkg/primaza/controlplane/namespaces_reconciler.go:128-135 | what is authorized but not requested covers exactly the orphaned agents |
| `ClaimDeletion.CoversExactlyWhen` | controllers/serviceclaim_controller.go:610-712 | the deletion of a claim covers its earlier pushes if and only if, for a claim that names a pushed namespace, its ClusterEnvironment still exists, and for a claim that names an environment, no namespace was taken out of it |
| `ClaimDeletion.UnchangedListIsCovered` | controllers/serviceclaim_controller.go:663-712 | for an unchanged list every push target is a deletion target, and the only other deletion target is a named namespace that its ClusterEnvironment does not have |
| `ClaimDeletion.Claim.PushServiceBinding` | pkg/primaza/controlplane/application_namespaces.go:36-70 | only the matching namespaces get the binding; no more of them are missed than calls failed |
| `ClaimDeletion.Claim.PushToClusterEnvironments` | controllers/serviceclaim_controller.go:610-661 | only push targets get a binding, all of them without an error unless the listing was not found; there is no error exactly when no call fails and the ClusterEnvironments could be read |
| `ClaimDeletion.Claim.DeleteFromNamespaces` | pkg/primaza/controlplane/application_namespaces.go:180-200 | only the given namespaces lose the binding; no more of them keep it than calls failed |
| `ClaimDeletion.Claim.DeleteServiceBindings` | controllers/serviceclaim_controller.go:663-712 | without an error no deletion target keeps the binding, except that a listing that is not found counts as success and deletes nothing |
| `ClaimFinalizer.ReconcileDeleted` | controllers/serviceclaim_controller.go:90-106 | success means that the finalizer is gone, and comes exactly when no call fails and every list could be read; the finalizer goes only once no deletion target holds a binding, with that same exception |
| `ClaimFinalizer.Live` | controllers/serviceclaim_controller.go:78-137 | after any number of failing pushes and deletions over an unchanged list, each with its own listing of services, a claim without finalizer has left nothing behind |
| `Informers.InformerTable.RunInformer` | controllers/clusterenvironment_controller_svcinformers.go:84-199 | an informer that could not be set up or synchronized leaves no trace; one that runs already is kept |
| `Informers.InformerTable.RunInformers` | controllers/clusterenvironment_controller_svcinformers.go:46-82 | whatever runs is stopped unless its name is that of a wanted namespace, and exactly when nothing fails every wanted informer runs |
| `Informers.InformerTable.RunPlainInformers` | controllers/clusterenvironment_controller_svcinformers.go:46-82 | with namespaces without a slash: without an error exactly the declared ones minus the failed ones are watched, and no other environment keeps an informer |
| `Informers.InformerTable.Serve` | controllers/clusterenvironment_controller_svcinformers.go:46-82 | over every sequence of runs with any failures the uncancelled contexts are those in the map, and only the last environment has informers |
| `Informers.KeyTells` | controllers/clusterenvironment_controller_svcinformers.go:84-92 | names of informers tell environment and namespace apart |
| `Admission.RunKeepsAdmission` | api/v1alpha1/serviceclass_webhook.go:76-153 | over every run of admitted creations, updates and deletions, differently named classes differ in kind or apiVersion, and each class keeps its kind, its apiVersion and, up to order, the mappings it was created with |
| `Admission.SameSetIsPermutation` | api/v1alpha1/serviceclass_webhook.go:125-143 | equal sets of mappings with distinct names are permutations of each other |
| `Admission.SameNameIsNotADuplicate` | api/v1alpha1/serviceclass_webhook.go:164-168 | classes of the same name in different namespaces may share a type |
| `Admission.ValidateMapping` | api/v1alpha1/serviceclass_webhook.go:54-73 | the list of errors, in order |
| `Admission.ErrorsAreExact` | api/v1alpha1/serviceclass_webhook.go:54-73 | they name exactly the positions whose path does not parse and those whose name came up before |
| `Admission.AcceptedExactlyWhen` | api/v1alpha1/serviceclass_webhook.go:54-73 | there is none if and only if every path parses and the names are distinct |
| `Admission.IsDuplicateClass` | api/v1alpha1/serviceclass_webhook.go:155-181 | the first listed class of another name with the same kind and apiVersion, if there is one |
| `Admission.ValidateCreate` | api/v1alpha1/serviceclass_webhook.go:76-91 | a creation is admitted if and only if its mappings are sound and no differently named class has its type; the errors name exactly the bad paths, the repeated names and the first other manager |
| `Admission.ValidateUpdate` | api/v1alpha1/serviceclass_webhook.go:107-153 | an update is admitted if and only if, moreover, type and set of mappings are unchanged; besides those errors one names each of apiVersion, kind and mappings exactly when it changed |
| `Permissions.RulesMembers` | pkg/authz/permissions.go:94-131 | the nested loops visit exactly the combinations of the rules, where no group stands for the core group and no name for the blank one |
| `Permissions.ReportMembers` | pkg/authz/permissions.go:112-127 | a combination is reported exactly when it has a wildcard or is not wanted |
| `Permissions.ReportLength` | pkg/authz/permissions.go:112-127 | the report has one line per wildcard and one per unwanted combination |
| `Permissions.CreateUnwantedPermissions` | pkg/authz/permissions.go:94-133 | the report of all combinations, in the order of the loops: a line is there exactly when some rule grants its combination and it has a wildcard or is not wanted |
| `Permissions.DefinedRules` | pkg/authz/permissions.go:160-180 | the map holds exactly the combinations of the wanted rules, where no group stands for the core group and no name for the blank one |
| `Permissions.AccessList` | pkg/authz/permissions.go:156-189 | a failed review ends the report; otherwise it is the reports of the namespaces one after the other: exactly the combinations that some rule grants there, spelled out, and that have a wildcard or are those of no wanted rule, as many as there are; it is empty if and only if everything granted is wanted and has no wildcard |

## Left out

- Client construction, connection tests, kubeconfigs, logging, contexts and timers; a remote call succeeds or fails.
- `controllerutil.CreateOrUpdate`, owner references, the conversion of StringData, and the secret that is written beside a service binding; a push to one namespace is one operation.
- JSONPath: parsing is a predicate, and reading a mapping yields a value or a failure.
- Unstructured objects: a workload is its volumes and its containers with variables and mounts. Joining a path does not clean it, and volume sources other than secrets have no structure.
- Label selectors: the selected workloads, and the listings in general, are inputs.
- Status conditions, events, the mirrored status of a remote claim, CronJobs and generated code.
- UIDs: an object that is deleted and created again under its name is, for claims, the same object with new contents; claims and services are never removed from the claim protocol.
- Restarts: the queue of services to reconcile survives, so a service deleted while the controller is down is not covered by the index theorem.
- `ClaimedByLabels` of a catalog, which only grows, and the push of catalogs to application namespaces.
- The finalizer that the application agent adds to a service binding is stored by status writes only, which do not store it; the model starts from whether it is there.
- Deleting a service binding means that the API server accepted the deletion; the object can wait for its own finalizer.
- `Permissions.Report`: lines are records, not formatted strings.
- `PrepareRegisteredService` and `ServiceEndpointDefinitionMapping` of the service agent, which copy fields into a RegisteredService and mappings into a list.
- Endpoints.RoundTrip: is for distinct names; admission checks them among resource fields only, not between those and secret references.
- ClaimTheorems.Exclusivity: says nothing about services with a HealthCheck, whose demotion and return to Available the code does not tie to claims, nor about runs in which a claim deletion frees the service from a claim that relies on it, which by `ClaimExclusivity.StepKeepsInvExactlyWhen` are the only ones that can break it and by `ClaimSharing.DeletionSharesService` do.
- CatalogIndex.RunKeepsIndex: is for runs that lose neither of two races; by `CatalogIndex.StepKeepsInvExactlyWhen` no weaker condition on single steps keeps the invariant.
- BindingReconciler.ServiceBindingAgent.FinalizeServiceBinding: other agents do not act between its calls, only between methods.
- NamespaceReconciler.Clusters.ReconcileNamespaces: requires clear names, which `NamespaceTheorems.AuthorizedExactlyWhen` shows to be exactly what authorization needs; the lengths of names are not limited.
- Informers.InformerTable.RunPlainInformers: is about one environment at a time, since running the informers of another one stops these.
- The dispatch of `Reconcile` over the states of a claim, the service agent's watches, and the health monitor.
