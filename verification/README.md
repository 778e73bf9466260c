# Verified model of the Aerospike CE Kubernetes operator

The operator decides when an Aerospike node may be taken down, when a volume may be deleted and when a node's configuration may be changed while it runs. This project models those decisions in Dafny and proves what they guarantee. The API server, the StatefulSet controller, the kubelet and the Aerospike nodes appear as state and as outcomes that may go either way, so every theorem ranges over all of them.

`dafny verify dfyconfig.toml` checks the whole project. Each file holds one module; `Text`, `Collections`, `Migration` and `Sizes` hold what several of them share.

**Rolling restart.** `RackPods` holds the pods' hashes, the selection of stale pods and the in-flight guard. `RollingRestart` is a state machine: the operator's scan, batch and per-pod restarts interleave with deletion, re-creation, readiness changes and third-party evictions. `RestartLimits` shows exactly where the batch bound ends, `RolloutStalls` exactly where progress does. `RestartPass` says what one pass does to each slot, and `RestartController` is the imperative reconciler, proved to take only the operator's own steps of that machine and to stay within its batch. `EscapeHatch` is the shared failure map behind the migration gate.

**Dynamic config.** `ConfigDiff` and `DiffSoundness` are the structural diff and its promise, `DiffClasses` what its two lists hold place by place, `DynamicParams` the registry of runtime parameters, `SetConfigCommand` the command text and how a node reads it, `TwoPhase` the validate, apply and undo protocol over a batch of nodes, `RollbackPartition` what an abort reports, `DynamicUpdate` the imperative form of that protocol. `DiffToNodes` joins the two ends: what the diff finds is what the nodes end up with when an update commits, and the old config is what they keep when it is undone.

**Shrinking.** `Readiness` is the check in front of a scale-down, `Shrink` covers scale-down and the teardown of removed racks, `PvcNames` and `Reclaim` the ownership and deletion of claims.

**Operations.** `Operations` is the persisted status machine of on-demand restarts, `OperationPass` one pass over it, `OperationRuns` what holds of whole runs.

**Config trees.** `ConfigTree`, `ConfigMerge`, `Template`, `TemplateLayers`, `CeRules`, `CePaths` and `Admission` cover merging, template defaults and who wins over them, the Community Edition rules and the defaulting webhook in front of them. `KeyOrder`, `ConfText`, `Printer`, `ConfWriter`, `ConfRoundTrip`, `ConfMeaning` and `ConfSections` cover aerospike.conf.

**Budgets and the breaker.** `RackSizes`, `Budget`, `PdbStore` and `Breaker`.

## Results that say no

Some promises do not hold of the code as it is. Each has a failing case and the condition under which the promise does hold.

- The restart bound is a promise about Parallel racks. `RestartLimits.OrderedReadyExceeds` breaks it; `RestartLimits.BoundExactly`: it holds over all runs if and only if the rack is Parallel or fits in one batch.
- A comment in the restart code rules out a stall when dynamic updates succeed. A round changes nothing if and only if every pod of its batch already carries the new config hash (`RolloutStalls.RoundExactly`), and then it repeats for ever (`RolloutStalls.StallRepeats`). A rollout gets rid of every config difference if and only if no config-stale pod waits behind a whole batch of pods that are stale for another reason (`RolloutStalls.RolloutEndsExactly`). When config and pod spec change together on a healthy rack, that fails if and only if the rack is larger than a batch (`RolloutStalls.BothChangedExactly`).
- A warm restart does not cure a storage mismatch (`RollingRestart.WarmRestartClears`, an if-and-only-if), so for every n there is a run of n rounds of restarts after which the same pods are still stale (`RolloutStalls.WarmStall`, `RolloutStalls.WarmStallOccurs`).
- An aborted two-phase update can report no failure while a change and a hash stamp are left behind (`TwoPhase.SilentLeftovers`). The failing pod ends as it started if and only if every change before the failing one has an old value that can be sent and the node takes it back (`TwoPhase.FailingTargetExactly`); one change without such a value, visible before the call, is enough to break it (`TwoPhase.NoOldValueSticks`). The stamps are as before if and only if the first pod failed, stamping is off, or every stamp accepted on an earlier pod was there already (`TwoPhase.StampsLeftExactly`). About the pods before the failing one the report is exact (`RollbackPartition.AbortReportsExactly`).
- A config that loses its whole `namespaces` key looks unchanged (`DiffSoundness.DroppedNamespaces`); `DiffSoundness.DiffSound` has the condition.
- An operation can end in Error with no failed pod: `Operations.NoMatchExactly` says when. One lost status write repeats an attempt (`Operations.LostWriteRepeats`) and takes a second pod down with a batch size of one (`Operations.LostWriteExceedsBatch`); over runs whose writes succeed neither happens (`Operations.OperationsRun`). A lost write is harmless over every run that follows if and only if its pass attempted nothing (`OperationRuns.LostWriteExactly`).
- The check made after a template is applied is weaker than admission: a default replication factor of nine gets through (`Admission.FactorNineGetsThrough`). The applied config is admissible if and only if the default factor is in range or every namespace sets its own (`Admission.AppliedAdmissibleExactly`).
- A template's heartbeat overwrites a network setting that is no section (`TemplateLayers.NetworkOverwritten`), where a service of the wrong type is refused. The cluster decides every path it says anything about if and only if network and its heartbeat are sections or absent (`TemplateLayers.ResolvedMergesExactly`). A negative override hides the template's interval or timeout and sets none; that aside, overrides win path by path (`TemplateLayers.LayersExactly`).
- Admission refuses budgets of one hundred percent, but Kubernetes rounds up: ninety-nine percent of ten pods is admitted and lets all ten go (`RackSizes.NinetyNinePercent`). `RackSizes.AdmittedLeavesOneExactly` says exactly which admitted budgets leave a pod.
- The two claim-name parsers disagree on a signed number (`PvcNames.SignedSuffixDisagrees`): of a claim whose volume is read, the ordinal is read too if and only if no sign stands in front of it (`PvcNames.VolumeWithoutOrdinal`). The other way round only an empty volume name is refused (`PvcNames.SamePlace`).
- The gates in front of reclaiming claims do not rule out that a live pod's claim goes, if a foreign pod carries the rack's label (`Reclaim.StrangerHidesPod`). The pod list is complete if and only if it holds no such stranger (`Reclaim.ListIsComplete`).
- The readiness check in front of a scale-down counts foreign pods under the rack's labels, and names that do not parse as pod zero (`Readiness.StrayStandsIn`). It errs if and only if some survivor is missing and the surplus covers what is missing (`Readiness.PassesExactly`).
- At replication factor one the default budget protects nothing: `Budget.DefaultKeepsDataExactly`. It is also not always the largest one that keeps a copy of every replicated namespace: it is if and only if some namespace keeps exactly two copies, or every rack lists namespaces and replicates all of them (`Budget.DefaultIsLargestExactly`).
- Correcting disruption budgets one by one can give a pod two of them (`PdbStore.SwappedSelectors`). On the per-rack path no state does so if and only if at each rack's turn every other budget on it has already been put right (`PdbStore.RackWritesExactly`); on the cluster-wide path if and only if the name is foreign or the sweep reaches every other budget on the cluster's pods (`PdbStore.WholePassExactly`). Deletion by name makes no owner check, so a pass can remove another cluster's budget (`PdbStore.OtherBudgetLost`); `PdbStore.PdbApi.ReconcilePdb` says exactly which survive.
- A template that keeps failing after a resume never trips the breaker (`Breaker.FailingTemplateNeverTrips`); ten consecutive failures trip it if and only if the cluster is marked neither Paused nor ConfigDegraded (`Breaker.TripsExactly`). A breaker tripped right after a resume lets go on the next pass, unasked (`Breaker.ReleasedUnasked`); a tripped breaker holds until someone pauses the cluster if and only if the cluster is not still marked Paused (`Breaker.HoldsExactly`).

## Model

| member | source | states |
|---|---|---|
| RackPods.ComparePodHashes | internal/controller/reconciler_restart.go:446-464 | equal hashes are never stale, a config mismatch always is, and an unknown storage hash alone does not make a pod stale |
| RackPods.AdoptingSettles | internal/controller/reconciler_restart.go:424-464 | adopting the wanted storage hash leaves nothing unknown and the pod no more stale than before |
| RackPods.SelectedExactly | internal/controller/reconciler_restart.go:343-422 | a pod is selected if and only if it is stale and neither among the ignorable unhealthy pods nor stuck |
| RackPods.SelectPodsToRestart | internal/controller/reconciler_restart.go:343-422 | the loop returns the selected pods in order, whether a config hash is among the reasons, and exactly the pods whose storage hash is adopted |
| RackPods.PassedOverExactly | internal/controller/reconciler_restart.go:343-422 | of the Pending or Failed pods exactly as many as may be ignored are passed over, the first ones; besides them only stuck pods are |
| RackPods.RestartInFlight | internal/controller/reconciler_restart.go:1020-1044 | the guard answers yes if and only if a pod is terminating, replaced and not Ready, or missing from a Parallel rack |
| RackPods.InFlightExactly | internal/controller/reconciler_restart.go:1020-1044 | the guard said on the pods' own phases, conditions and hashes |
| RackPods.FilterUnrestarted | internal/controller/reconciler_restart.go:946-972 | for any success count, the queue loses exactly the members that did not fail up to where the count is reached, and keeps its order |
| RackPods.FilterExactly | internal/controller/reconciler_restart.go:946-972 | for a positive count every member that did not fail leaves the queue if and only if there are no more of them than counted |
| RackPods.ZeroDropsFirst | internal/controller/reconciler_restart.go:946-972 | a count of zero still drops the first member unless it failed |
| RollingRestart.RestartBound | internal/controller/reconciler_restart.go:168-322 | in every run of a Parallel rack at most one batch of restarted slots is not back Ready |
| RollingRestart.RestartConservation | internal/controller/reconciler_restart.go:483-580 | with dynamic update off and no storage drift, the restarts reported over a run are exactly the stale pods that disappeared |
| RollingRestart.RestartsBounded | internal/controller/reconciler_restart.go:483-580 | third-party evictions never cause more restarts than stale pods disappeared |
| RollingRestart.StaleNeverGrows | internal/controller/reconciler_restart.go:343-464 | no step of anyone makes a pod stale |
| RollingRestart.RestartExactly | internal/controller/reconciler_warm_restart.go:25-63 | a restart succeeds and leaves the pod in place if and only if it was up, Running and Ready on the wanted image and pod spec, exec is available and works and the stamp is written; any other pod goes down if and only if its deletion is not refused, and is never stamped |
| RollingRestart.OwedExactly | internal/controller/reconciler_restart.go:583-626 | a slot becomes owed only by a cold restart and stops being owed only when its pod is Running, Ready and not terminating |
| RollingRestart.ReplacementIsCurrent | internal/controller/reconciler_restart.go:446-464 | a recreated pod is current, and could be restarted warm once it is Ready |
| RollingRestart.WarmRestartClears | internal/controller/reconciler_restart.go:583-626 | a successful warm restart leaves the pod stale if and only if its storage hash differs |
| RollingRestart.DynamicBatchFalls | internal/controller/reconciler_restart.go:483-580 | a dynamic update cures exactly the batch if and only if no member differs in its pod spec |
| RestartLimits.OrderedReadyExceeds | internal/controller/reconciler_restart.go:1020-1044 | an OrderedReady rack larger than a batch has a run with more than a batch down |
| RestartLimits.BoundExactly | internal/controller/reconciler_restart.go:1020-1141 | the bound holds over all runs if and only if the rack is Parallel or fits in one batch |
| RolloutStalls.RoundExactly | internal/controller/reconciler_restart.go:483-550 | a dynamic round changes nothing if and only if every batch member carries the new config hash; otherwise the config-stale pods strictly decrease, by exactly the batch |
| RolloutStalls.StallRepeats | internal/controller/reconciler_restart.go:278-283 | such a round can be repeated any number of times, reporting restarts and changing nothing |
| RolloutStalls.RolloutEndsExactly | internal/controller/reconciler_restart.go:278-283 | successful dynamic updates get rid of every config difference if and only if no config-stale pod waits behind a batch of pods stale for another reason |
| RolloutStalls.RolloutReachable | internal/controller/reconciler_restart.go:168-322 | on a rack that is up these rollouts are runs of the machine |
| RolloutStalls.BothChangedExactly | internal/controller/reconciler_restart.go:278-283 | when config and pod spec change together on a healthy rack, a rollout by dynamic updates keeps a config difference for ever if and only if the rack is larger than a batch |
| RolloutStalls.WarmStall | internal/controller/reconciler_restart.go:583-626 | for every n a rack whose batch is stale on storage only has a run reporting n rounds of warm restarts that leaves every pod in place and stale |
| RolloutStalls.WarmStallOccurs | internal/controller/reconciler_restart.go:583-626 | such a rack exists under every template with a storage hash |
| RestartController.Controller.IsBatchBlocked | internal/controller/reconciler_restart.go:1067-1141 | blocks on an in-flight restart, then on gates, then on migration, with the failure map updated only by migration checks |
| RestartController.AnyPodGateUnsatisfied | internal/controller/reconciler_restart.go:1067-1141 | true if and only if a running pod that is not terminating has not met its gate |
| RestartController.Controller.RestartEach | internal/controller/reconciler_restart.go:552-580 | by the operator's own steps, takes down exactly the members that were up, could not be signalled and were deleted, stamps exactly those signalled, leaves every other slot alone, names exactly the failures, and owes exactly the accepted deletions |
| RestartController.Controller.RestartPodBatch | internal/controller/reconciler_restart.go:483-580 | the dynamic path or the per-pod path by the operator's own steps: stamps on batch members only, then the restarts it did not make unnecessary, with the same accounting |
| RestartController.Controller.ReconcileRollingRestart | internal/controller/reconciler_restart.go:168-322 | a whole pass is a run of the operator's own steps and confined to its batch; it either only adopts storage hashes, or nothing is in flight, the gates are met, the data is known not to migrate or the escape hatch is open, and the batch is worked on as the outcomes say, taking down exactly the members that could not be signalled and were deleted, none where a dynamic update was applied to all; the pending queue follows from what it did |
| RestartController.Controller.RestartAllowed | internal/controller/reconciler_restart.go:254-322 | once allowed, works on exactly the selected batch by the operator's own steps and updates the queue by what was restarted |
| RestartPass.PassConfined | internal/controller/reconciler_restart.go:168-580 | a pass changes no slot outside its batch except to adopt a storage hash, takes down at most a batch of slots, all of them batch members, and owes every one |
| RestartPass.PassKeepsBound | internal/controller/reconciler_restart.go:168-580 | on a Parallel rack, whatever happened before, what a pass takes down is part of the at most one batch owed when it ends |
| RestartPass.RestartsExactly | internal/controller/reconciler_restart.go:552-626 | restarting a batch takes down exactly the members that were up, not signalled and deleted, owes exactly the deleted ones, and stamps a member that stays up exactly when it was signalled and the stamp written |
| RestartPass.FailedExactly | internal/controller/reconciler_restart.go:552-626 | a member fails if and only if it is signalled and cannot be stamped, or is not and its deletion is refused |
| RestartPass.PassTakesDownExactly | internal/controller/reconciler_restart.go:168-626 | the same for a whole pass, on the pods as scanned; none goes down where a dynamic update was applied to the whole batch |
| EscapeHatch.FailureMap.RecordFailure | internal/controller/reconciler_restart.go:110-138 | sweeps expired entries, then counts the failure, and reports the hatch by count and elapsed time |
| EscapeHatch.FailureMap.Sweep | internal/controller/reconciler_restart.go:142-148 | removes exactly the expired entries |
| EscapeHatch.FailureMap.Clear | internal/controller/reconciler_restart.go:152-159 | removes exactly the rack's entry |
| EscapeHatch.HatchRefinesHistory | internal/controller/reconciler_restart.go:104-159 | the shared map opens the hatch for a rack if and only if its own history since its last answer has five failures, no gap over an hour, and spans ten minutes |
| EscapeHatch.HatchIgnoresOthers | internal/controller/reconciler_restart.go:104-106 | two histories that agree on a rack's own checks give it the same answer |
| SetConfigCommand.ReadBuild | internal/controller/reconciler_dynamic_config.go:398-424 | a command that is built is read back as exactly the address and value it was built from |
| SetConfigCommand.OneDirective | internal/controller/reconciler_dynamic_config.go:378-424 | behind its prefix a command holds no further colon and no control character, whatever its fields are |
| SetConfigCommand.NoBlankEnds | internal/controller/reconciler_dynamic_config.go:378-424 | no field that is sent begins or ends with a blank |
| SetConfigCommand.VisibleSends | internal/controller/reconciler_dynamic_config.go:368-424 | a key of letters, digits, underscores, dots and hyphens can be sent with every visible context and value |
| SetConfigCommand.NumbersAreSafe | internal/controller/reconciler_dynamic_config.go:378-393 | every whole number can be sent |
| DynamicUpdate.Fleet.ApplyOnPod | internal/controller/reconciler_dynamic_config.go:71-113 | applies changes in order until one fails |
| DynamicUpdate.Fleet.Rollback | internal/controller/reconciler_dynamic_config.go:285-324 | undoes the applied changes last to first and counts those it could not undo |
| DynamicUpdate.Fleet.RollbackAll | internal/controller/reconciler_dynamic_config.go:253-281 | undoes the committed pods last to first and tallies them |
| DynamicUpdate.Fleet.Validate | internal/controller/reconciler_dynamic_config.go:177-194 | phase one over all pods, changing no node |
| DynamicUpdate.Fleet.Commit | internal/controller/reconciler_dynamic_config.go:196-249 | phase two over all pods, with the abort paths |
| DynamicUpdate.Fleet.TryDynamicConfigUpdateBatch | internal/controller/reconciler_dynamic_config.go:128-249 | refuses untouched when disabled, unchanged, static or unresolved, and otherwise runs the protocol on exactly the pods' nodes |
| TwoPhase.UpdatedCarries | internal/controller/reconciler_dynamic_config.go:71-113 | an updated node carries every change, if changes to one address agree |
| TwoPhase.ApplyExactly | internal/controller/reconciler_dynamic_config.go:71-113 | an apply puts in force exactly the changes before the first that is late, unsendable or refused |
| TwoPhase.RollbackRestores | internal/controller/reconciler_dynamic_config.go:285-324 | an undo without failures leaves the node exactly as it was |
| TwoPhase.RollbackTally | internal/controller/reconciler_dynamic_config.go:253-281 | counts and named pods account for every committed pod |
| TwoPhase.TwoPhaseVerdict | internal/controller/reconciler_dynamic_config.go:128-249 | refused changes nothing, committed updates every target and nothing else, aborted leaves later pods alone and every unnamed earlier pod whose node held the old values exactly as before |
| TwoPhase.RefusedExactly | internal/controller/reconciler_dynamic_config.go:52-194 | a batch is refused if and only if there is a target and a change cannot be sent, the deadline passes or a node stays silent before every target has been probed |
| TwoPhase.CleanUndoExactly | internal/controller/reconciler_dynamic_config.go:285-324 | an undo has no failure if and only if every change has an old value that can be sent and the node takes it when its turn comes |
| TwoPhase.NoOldValueSticks | internal/controller/reconciler_dynamic_config.go:346-366 | one change without such an old value is enough for the undo to fail |
| TwoPhase.FailingTargetExactly | internal/controller/reconciler_dynamic_config.go:214-226 | the failing pod ends as before if and only if every change before the failing one has an old value that can be sent and the node takes it back |
| TwoPhase.StampsLeftExactly | internal/controller/reconciler_dynamic_config.go:196-249 | after an abort the new stamps are exactly those accepted for earlier pods; the stamps are as before if and only if the first pod failed, stamping is off, or every accepted stamp was on a pod that had one |
| RollbackPartition.AbortReportsExactly | internal/controller/reconciler_dynamic_config.go:253-281 | for distinct pods and changes that move the config, an abort names an earlier pod if and only if its node is not back to its prior config, and none twice |
| TwoPhase.SilentLeftovers | internal/controller/reconciler_dynamic_config.go:214-232 | a family of runs whose reported result has no failure while a change and a hash stamp are left behind |
| ConfigDiff.DiffResult.DiffSection | internal/configdiff/diff.go:51-108 | adds exactly the findings of two sections at any depth, which FindingsExactly pins place by place |
| ConfigDiff.DiffResult.DiffNamespaces | internal/configdiff/diff.go:111-182 | adds exactly the findings of two sets of namespaces |
| ConfigDiff.DiffResult.Add | internal/configdiff/diff.go:185-200 | adds one change to the list its class names |
| DiffClasses.Diff | internal/configdiff/diff.go:44-48 | the dynamic list holds exactly the changes at places where the configs part, the new one has a value and the path is registered; the static list exactly those at the other places and those of namespaces only one config lists; in well-formed configs no place is in both |
| ConfigDiff.ByName | internal/configdiff/diff.go:312-322 | every entry is filed under the name it carries |
| ConfigDiff.ByNameExactly | internal/configdiff/diff.go:312-322 | under a name stands the last entry that carries it, and nothing when none does |
| DiffClasses.FindingsExactly | internal/configdiff/diff.go:51-200 | there is exactly one finding per place where the configs part and one per namespace only one of them lists, each of the class its place has |
| DiffClasses.PlaceExactly | internal/configdiff/diff.go:51-200 | the change at a place is dynamic if and only if the new config has a value there and the path is registered, and static otherwise |
| DiffClasses.QuietExactly | internal/configdiff/diff.go:248-300 | nothing is reported if and only if the sections are alike with numbers read by value and the new config has no namespaces key or lists the same namespaces with the same parameters |
| DiffSoundness.SplitJoin | internal/configdiff/diff.go:204-246 | splitting a joined path of clean keys gives the keys back |
| DiffSoundness.DifferenceReported | internal/configdiff/diff.go:51-108 | every place where two sections part is reported under its path |
| DiffSoundness.DynamicAimed | internal/configdiff/diff.go:185-246 | every dynamic finding's address names a place where the configs really part, and its value is the new one |
| DiffSoundness.ApplyAllShrinks | internal/controller/reconciler_dynamic_config.go:71-113 | applying such changes in any order only ever removes their own places from the difference |
| DiffSoundness.DiffSound | internal/configdiff/diff.go:44-182 | without static findings, applying the dynamic ones in any order yields the new config up to number types if and only if the new config has a namespaces key or the old one had no namespace |
| DiffSoundness.SpotsDiffer | internal/configdiff/diff.go:44-246 | no two dynamic findings name the same place |
| DiffSoundness.DroppedNamespaces | internal/configdiff/diff.go:60-91 | a config that loses its namespaces key has no findings and is not the same |
| DynamicParams.RegisteredDiffSound | internal/configdiff/dynamic_params.go:14-91 | the same for the registry in use |
| DynamicParams.IsDynamicExactly | internal/configdiff/dynamic_params.go:14-91 | registered are exactly the parameters of a context under that context |
| DiffToNodes.AddressesDiffer | internal/controller/reconciler_dynamic_config.go:398-424 | different dynamic findings are sent to different addresses |
| DiffToNodes.CommitCarriesTheDiff | internal/controller/reconciler_dynamic_config.go:128-249 | a committed update of the dynamic findings leaves every target with every new value and every other node alone |
| DiffToNodes.CommitRunsTheNewConfig | internal/controller/reconciler_dynamic_config.go:128-249 | without static findings, a committed update leaves a target that ran the old config running one that agrees with the new if and only if the new config has a namespaces key or the old one had no namespace |
| DiffToNodes.CommitWritesPlaces | internal/controller/reconciler_dynamic_config.go:128-249 | a committed update writes, on every target, the rendered new value at the address of every place that is sent, and nothing at any other address |
| DiffToNodes.UndoSends | internal/controller/reconciler_dynamic_config.go:346-366 | what is sent to undo a change, if anything, is its old value |
| DiffToNodes.AbortKeepsTheOldConfig | internal/controller/reconciler_dynamic_config.go:253-366 | a target before the failing one whose node held the old config at the places written, and whose pod is not named, ends with exactly its prior config |
| DiffToNodes.AbortNamesExactly | internal/controller/reconciler_dynamic_config.go:253-366 | where the update moves every target away from the old config, the result names exactly the pods whose nodes do not run their prior config again |
| Sizes.ResolveIntOrPercent | internal/controller/reconciler_statefulset.go:844-861 | a positive count as it is, a percentage rounded up, one pod otherwise |
| Sizes.RollingUpdateBatchSize | internal/controller/reconciler_restart.go:865-875 | the rack-level setting wins, then a positive legacy one, then one pod; never less than one |
| Sizes.ScaleDownBatchSize | internal/controller/reconciler_statefulset.go:836-841 | the configured size, or the whole difference; at least one pod when there is one to remove |
| Readiness.CheckScaleDownReadiness | internal/controller/reconciler_statefulset.go:225-256 | defers if and only if more survivors are missing than foreign or repeated pods are counted |
| Readiness.PassesExactly | internal/controller/reconciler_statefulset.go:225-256 | ready survivors always pass; the check errs if and only if something is missing and the surplus covers it, and never when nothing foreign or repeated is counted |
| Readiness.StrayStandsIn | internal/controller/reconciler_restart.go:1144-1154 | a ready foreign pod whose name does not parse stands in for pod zero |
| Shrink.Racks.ReconcileReplicas | internal/controller/reconciler_statefulset.go:142-192 | creates a missing rack at its size, grows at once to it, and makes every decrease justified by an answered migration check and the readiness check, one batch at a time down to its floor |
| Shrink.Racks.DrainRemovedRack | internal/controller/reconciler_statefulset.go:739-797 | one justified batch towards zero, drained only if it was at zero already |
| Shrink.Racks.TearDown | internal/controller/reconciler_statefulset.go:518-724 | deletes a set only from zero replicas and its claims only when no pod is listed |
| Shrink.Racks.CleanupRemovedRacks | internal/controller/reconciler_statefulset.go:518-724 | each removed rack takes exactly one step, racks of the spec none; claims go only from a set being deleted at zero replicas once a fresh list shows no pod; after a failure every removed rack is unchanged or has taken its step |
| Shrink.JustifiedThroughout | internal/controller/reconciler_statefulset.go:142-256 | every logged decrease, deletion and release of claims was justified in the state replayed up to it |
| Shrink.SurvivorsReady | internal/controller/reconciler_statefulset.go:142-256 | a justified decrease left every survivor ready, if nothing foreign or repeated was counted |
| Shrink.DescentFinishes | internal/controller/reconciler_statefulset.go:142-192 | allowed passes strictly descend, never pass the floor and reach it |
| PvcNames.ExtractOrdinal | internal/storage/pvc.go:293-325 | the scan computes the ordinal the specification reads |
| PvcNames.OrdinalExactly | internal/storage/pvc.go:293-325 | an ordinal is read if and only if the name ends in the pattern and an unsigned 32-bit decimal |
| PvcNames.SamePlace | internal/storage/pvc.go:293-346 | where both parsers answer they split the name at the same place |
| PvcNames.RoundTrip | internal/storage/pvc.go:293-346 | both parsers invert the rendering of a volume and an ordinal |
| PvcNames.VolumeWithoutOrdinal | internal/storage/pvc.go:293-346 | of a claim whose volume is read, the ordinal is read too if and only if only digits follow the pattern, and is not if and only if a sign does |
| PvcNames.SignedSuffixDisagrees | internal/storage/pvc.go:293-346 | a name on which the two parsers disagree |
| PvcNames.OneRackPerClaim | internal/utils/names.go:6-8 | no claim name is attributed to two racks of a cluster |
| Reclaim.ClaimStore.OwnedOrphanCandidates | internal/storage/pvc.go:155-211 | exactly the claims with all four labels of the cluster, no owner or this set's uid among the owners, and a name made of one of its templates, its name and an ordinal at or above the replicas |
| Reclaim.ClaimStore.DeleteOrphanedCascadeDeletePVCs | internal/storage/pvc.go:220-262 | deletes exactly those of them, of a volume marked persistent and cascade-delete, that the API lets go |
| Reclaim.LeftBehindExactly | internal/storage/pvc.go:155-262 | the parsers, the label selector and the owner check together pick exactly the claims left behind, said on name, labels and owners alone |
| Reclaim.CheckReclaim | internal/controller/reconciler_statefulset.go:307-432 | the gates pass if and only if the settled state they stand for holds |
| Reclaim.ClaimStore.ReclaimOrphanedRackPVCs | internal/controller/reconciler_statefulset.go:307-432 | deletes a claim if and only if the gates pass and it was left behind; a claim that names other owners only is still there after every call, and nothing goes while the set is unsettled, at zero or below the rack's size |
| Reclaim.PodOrdinalRoundTrip | internal/controller/reconciler_statefulset.go:441-458 | a pod's ordinal is read back from its name |
| Reclaim.ListIsComplete | internal/controller/reconciler_statefulset.go:307-432 | once the gates pass, as many owned pods were missed as strangers were listed, so the list is complete if and only if it holds no stranger |
| Reclaim.ReclaimSafe | internal/controller/reconciler_statefulset.go:307-432 | a deleted claim carries the cluster's labels and names no owner or this set; its ordinal is at or above both the replicas and the rack size, and no owned pod has it unless a stranger was listed |
| Reclaim.MountedClaimStays | internal/controller/reconciler_statefulset.go:307-432 | the claim of a pod the set still owns is reclaimable only if a stranger was listed |
| Reclaim.StrangerHidesPod | internal/controller/reconciler_statefulset.go:307-432 | one stranger under the rack's label is enough for a live pod's claim to go |
| OperationPass.FilterPodsByNames | internal/controller/reconciler_operations.go:398-419 | the named pods that exist, in the order named, or all pods |
| OperationPass.OperationController.AttemptBatch | internal/controller/reconciler_operations.go:132-180 | attempts exactly the first unresolved targets up to the batch size, by the operator's own steps |
| OperationPass.OperationController.WorkThrough | internal/controller/reconciler_operations.go:126-201 | past the guard, the log grows by exactly the batch, other pods are left alone, and the status stored is the one the outcomes amount to |
| OperationPass.OperationController.ReconcileOperations | internal/controller/reconciler_operations.go:19-201 | a pass is a run of the operator's own steps and confined to its batch, whatever the status write comes to; it is in progress until a terminal status is stored, reports a refused write, and touches nothing after a terminal one |
| Operations.OperationsRun | internal/controller/reconciler_operations.go:94-201 | over every run with successful writes no pod is attempted twice, the lists are duplicate-free and disjoint, and at most one batch is not back Ready |
| Operations.TerminalAbsorbs | internal/controller/reconciler_operations.go:31-42 | a terminal status never changes and nothing is attempted after it |
| Operations.PassProgress | internal/controller/reconciler_operations.go:132-201 | an unblocked pass shrinks the unresolved targets by exactly its batch, and is terminal if and only if none is left, Completed if and only if none failed |
| OperationRuns.FinishesWithin | internal/controller/reconciler_operations.go:94-201 | with fixed targets the operation is over once as many passes have got past the guard as it takes batches to cover the unresolved ones |
| OperationRuns.BatchWaits | internal/controller/reconciler_operations.go:287-381 | warm or cold, a batch starts only when every pod restarted so far is present, Ready and not terminating |
| OperationRuns.StartsExactly | internal/controller/reconciler_operations.go:94-180 | a pass starts a batch if and only if a target is unresolved, no gate is held, no target is terminating and every completed pod is a target that is back; the batch is as large as the settings say, or takes all that is left |
| OperationRuns.UnsupportedTouchesNothing | internal/controller/reconciler_operations.go:132-165 | over every run of an unsupported kind the pods are what their own steps made of them and none counts as completed |
| OperationRuns.UnsupportedEndsInError | internal/controller/reconciler_operations.go:132-201 | once no target is outstanding, such an operation stores Error with every target failed |
| OperationRuns.LostWriteExactly | internal/controller/reconciler_operations.go:186-196 | a lost status write leaves single attempts intact over every run that follows if and only if its pass attempted nothing |
| Operations.NoMatchExactly | internal/controller/reconciler_operations.go:60-79 | a pass ends in Error without an attempt if and only if pods are named, none exists and the write goes through |
| Operations.LostWriteRepeats | internal/controller/reconciler_operations.go:186-196 | after one lost status write the same pod is attempted again |
| Operations.LostWriteExceedsBatch | internal/controller/reconciler_operations.go:186-196 | after one lost status write a batch size of one has two pods down |
| ConfigMerge.DeepMerge | internal/utils/merge.go:41-90 | computes the merge of two trees |
| ConfigMerge.DeepMergeMapBaseFirst | internal/template/config.go:144-165 | computes the same merge |
| ConfigMerge.MergeLaws | internal/utils/merge.go:41-65 | merging with itself, or again with either side, changes nothing |
| ConfigMerge.MergePathwise | internal/utils/merge.go:35-65 | at every path the override decides what it says anything about and the base the rest |
| ConfigMerge.MergeAnswers | internal/utils/merge.go:35-65 | the same for sections as well as settings: wherever the override answers at all, the merge answers the same |
| TemplateLayers.ClusterSpec.ApplyAerospikeConfig | internal/template/config.go:33-99 | lays the defaults under the cluster's config, or refuses a service that is no map and leaves it; where network is a section the cluster decides every path it says anything about and the template every other |
| TemplateLayers.ClusterSpec.ApplyNamespaceDefaults | internal/template/config.go:103-127 | merges the defaults under every namespace entry that is a map |
| Template.ReapplyingChangesNothing | internal/controller/reconciler.go:396-423 | applying a resolved template again changes nothing |
| TemplateLayers.ResolvedMergesExactly | internal/template/config.go:33-99 | namespaces aside, the resolved config is the template's tree merged under the cluster's if and only if the sections its heartbeat goes into are sections or absent |
| TemplateLayers.ResolvedPathwise | internal/template/config.go:33-127 | then the cluster decides every path it says anything about and the template every other, in service, heartbeat and each namespace entry |
| TemplateLayers.NetworkOverwritten | internal/template/config.go:129-139 | a network setting that is no section is lost to a template that sets a heartbeat |
| TemplateLayers.OverridesWin | internal/template/merge.go:87-127 | overrides win over the template path by path in service settings and namespace defaults |
| TemplateLayers.LayersExactly | internal/template/merge.go:87-172 | a template with overrides says what the merged trees say if and only if no negative override hides a heartbeat setting |
| CeRules.ValidateAerospikeConfig | api/v1alpha1/aerospikecluster_webhook.go:879-990 | no error if and only if the config is admissible |
| CeRules.ValidateNamespaces | api/v1alpha1/aerospikecluster_webhook.go:896-953 | no error if and only if there are at most two valid namespaces with different names |
| CeRules.ValidateLogging | api/v1alpha1/aerospikecluster_webhook.go:1134-1163 | no error if and only if every sink is a named map without enterprise contexts |
| CePaths.AdmissibleExactly | api/v1alpha1/aerospikecluster_webhook.go:879-1163 | a config is admissible if and only if it answers for none of the enterprise paths, its service, network and security are sections where present, its heartbeat mode is mesh, and its namespaces and sinks are ones the Community Edition has |
| CeRules.RackMergeAdmissible | internal/controller/reconciler_config.go:170-190 | admissible cluster and rack configs merge to an admissible one |
| CeRules.TemplatePassesSecondCheck | internal/template/resolver.go:123-214 | if template, overrides and cluster config were admitted, the applied config passes the second check |
| CePaths.TemplateExactly | api/v1alpha1/aerospikeclustertemplate_webhook.go:174-282 | a template is admitted if and only if its maps keep to the same paths and hold no tls- key of their own, and its namespace defaults no enterprise key |
| CePaths.MergedExactly | internal/template/resolver.go:123-214 | the second check asks for the same paths and for no enterprise key in a namespace, and for no shape |
| CeRules.ResolvedExactly | internal/template/config.go:33-127 | whatever the template and the cluster's config, the applied config is admissible if and only if heartbeat mode and default factor are in range or hidden |
| Admission.Defaulter.DefaultServiceConfig | api/v1alpha1/aerospikecluster_webhook.go:125-147 | fills in the cluster name and the descriptor limit where absent |
| Admission.Defaulter.DefaultNetworkConfig | api/v1alpha1/aerospikecluster_webhook.go:149-178 | fills in the ports and the mesh mode where absent |
| Admission.Defaulter.Default | api/v1alpha1/aerospikecluster_webhook.go:103-178 | fills in the defaults, or fails exactly when a section it fills is no map |
| Admission.DefaultedHasMode | api/v1alpha1/aerospikecluster_webhook.go:149-178 | a defaulted config has a heartbeat mode of its own |
| Admission.DefaultsLaidUnder | api/v1alpha1/aerospikecluster_webhook.go:103-178 | defaulting lays one tree of defaults under the config: whatever the config says stays, and where it says nothing the default stands |
| Admission.AdmittedModeIsMesh | api/v1alpha1/aerospikeclustertemplate_webhook.go:163-171 | an admitted template lays no heartbeat mode but mesh under a config |
| Admission.DefaultsKeepVerdict | api/v1alpha1/aerospikecluster_webhook.go:103-178 | filling in defaults never changes whether a config is admissible |
| Admission.AppliedAdmissibleExactly | internal/template/resolver.go:123-214 | for admitted templates, overrides and clusters the second check always passes, and the applied config is admissible if and only if the default factor is in range or every namespace sets its own |
| Admission.FactorNineGetsThrough | internal/template/resolver.go:164-214 | a default factor of nine is admitted, passes the second check and makes the config inadmissible |
| KeyOrder.SortedUnique | internal/configgen/generator.go:250-257 | a set of keys has only one sorted listing |
| KeyOrder.SortKeys | internal/configgen/generator.go:250-257 | whatever order the keys come in, the listing is the same |
| KeyOrder.BeforeExactly | internal/configgen/generator.go:250-257 | the order is that of the first character at which two keys differ, a prefix coming first |
| ConfText.ReadRender | internal/configgen/generator.go:109-159 | a reader that insists on matching brackets and tabs equal to depth accepts every rendering and returns what was rendered |
| Printer.ScalarReadsBack | internal/configgen/generator.go:214-247 | booleans and whole numbers are recovered from their text, and neither reads as the other |
| Printer.SinkReadsBack | internal/configgen/generator.go:168-211 | every log sink is read back as what its name stands for |
| Printer.StorageTypeExactly | internal/configgen/namespace.go:142-153 | a written type wins; failing that, naming a file or a device makes the engine a device |
| ConfWriter.Builder.WriteBlock | internal/configgen/generator.go:116-123 | appends the rendering of one stanza |
| ConfWriter.Builder.WriteMapEntries | internal/configgen/generator.go:126-159 | appends the rendering of a map's entries in key order |
| ConfWriter.Builder.WriteNamespaceEntry | internal/configgen/namespace.go:45-92 | appends the rendering of one namespace parameter |
| ConfWriter.Builder.WriteStorageEngine | internal/configgen/namespace.go:97-153 | appends the storage engine in its own syntax |
| ConfWriter.Builder.GenerateNamespaceSections | internal/configgen/namespace.go:10-42 | appends one stanza per namespace, or refuses an unnamed one |
| ConfWriter.Builder.GenerateLoggingSection | internal/configgen/generator.go:168-211 | appends the logging stanza, or refuses an unnamed sink |
| ConfWriter.Builder.GenerateNetworkSection | internal/configgen/network.go:28-64 | appends the network stanza |
| ConfWriter.Builder.GenerateHeartbeatSubsection | internal/configgen/network.go:67-112 | appends the heartbeat stanza with one seed per pod in place of hand-written ones |
| ConfWriter.GenerateConfForPod | internal/configgen/generator.go:22-106 | the whole file, or nothing where a section has the wrong shape |
| ConfRoundTrip.FileReadsBack | internal/configgen/generator.go:22-87 | every clean config that renders reads back, namespaces, logging and network included |
| ConfRoundTrip.StanzaRoundTrip | internal/configgen/generator.go:109-159 | reading a generic stanza of any depth recovers its tree up to nils, empty and one-element lists and scalar text |
| ConfMeaning.FileMeansConfig | internal/configgen/generator.go:22-106 | from the text of any clean config a reader recovers the namespaces with names and parameters in order, and as seeds exactly the injected ones |
| ConfMeaning.ParamAt | internal/configgen/namespace.go:45-153 | each parameter's occurrences stand under its own key, the storage engine's with its type |
| ConfMeaning.HeartbeatReads | internal/configgen/network.go:67-112 | the heartbeat stanza reads back as the injected seeds, whatever was written by hand |
| ConfSections.FileKeepsSections | internal/configgen/generator.go:22-106 | from the text of any clean config a reader recovers, under every key but the namespaces', what the config says there: service, network with the injected seeds, sinks with their contexts, any other section, and nothing for security, nil or an absent key |
| ConfSections.RendersExactly | internal/configgen/generator.go:22-106 | a config renders if and only if service and network are sections and namespaces and logging lists of named entries, where present |
| RackSizes.RackConservation | internal/controller/reconciler.go:862-872 | rack sizes add up to the cluster's, differ by at most one and are positive when there are enough pods |
| RackSizes.AllPodNames | internal/controller/reconciler_config.go:82-96 | exactly one seed name per pod, all different |
| RackSizes.AdmittedBudgetStands | api/v1alpha1/aerospikecluster_webhook.go:1704-1745 | a nonnegative integer budget admission accepts for a rack is written unchanged and leaves a pod |
| RackSizes.ClampLeavesOne | internal/controller/reconciler_pdb.go:186-209 | the clamp never lets a whole rack go, and changes an integer if and only if admission would refuse it or it is negative |
| RackSizes.ClampIsNearest | internal/controller/reconciler_pdb.go:186-209 | the integer written is the nearest to the configured one between none and all but one |
| RackSizes.AdmittedLeavesOneExactly | api/v1alpha1/aerospikecluster_webhook.go:1704-1760 | an admitted budget leaves a pod if and only if it is an integer or a percentage that does not round up to all pods |
| RackSizes.SmallRacks | internal/controller/reconciler_pdb.go:186-209 | for a rack of at most one pod nothing is clamped, and admission refuses no integer for a rack of unknown size |
| RackSizes.NinetyNinePercent | api/v1alpha1/aerospikecluster_webhook.go:1745-1760 | ninety-nine percent of ten pods is admitted and lets all ten go |
| Budget.MinReplicationFactor | internal/controller/reconciler_pdb.go:45-82 | the running minimum, with the default where nothing can be read |
| Budget.LeastIsLeast | internal/controller/reconciler_pdb.go:45-82 | that minimum is no larger than any namespace's factor and is one of them |
| Budget.ClusterDefault | internal/controller/reconciler_pdb.go:108-181 | the smallest rack default, at least one |
| Budget.DefaultKeepsDataExactly | internal/controller/reconciler_pdb.go:45-181 | evicting as many pods as the default allows leaves a copy in every placement if and only if the namespace keeps at least two |
| Budget.DefaultIsLargestExactly | internal/controller/reconciler_pdb.go:45-181 | the default is the largest budget that keeps a copy of every replicated namespace if and only if some namespace keeps exactly two copies, or every rack lists namespaces and replicates all of them |
| Budget.DefaultAtMostThree | internal/controller/reconciler_pdb.go:45-181 | for admitted configs the default is between one and three |
| Budget.ParsedFactorExactly | internal/controller/reconciler_pdb.go:45-82 | a factor of a known type and range is read as it is, every other one counts as two |
| Budget.EffectiveAnswers | internal/controller/reconciler_config.go:170-190 | a rack runs what it sets itself and the cluster's config at every path it says nothing about |
| PdbStore.RackNameRecognised | internal/controller/reconciler_pdb.go:510-521 | every rack budget's name is recognised as one |
| PdbStore.NamesDiffer | internal/utils/names.go:26-36 | no two budgets of a cluster share a name |
| PdbStore.PdbApi.ReconcileOnePdb | internal/controller/reconciler_pdb.go:303-388 | creates or corrects the cluster's own budget, leaves another cluster's alone, and is safe if and only if the result gives no pod two budgets |
| PdbStore.PdbApi.DeletePdbByName | internal/controller/reconciler_pdb.go:391-409 | removes the budget if it is there and the deletion is accepted, whoever owns it |
| PdbStore.PdbApi.DeleteRackPdbs | internal/controller/reconciler_pdb.go:425-454 | removes exactly the listed rack budgets that are not kept |
| PdbStore.SweptExactly | internal/controller/reconciler_pdb.go:425-521 | a sweep takes exactly the cluster's own labelled budgets named after the cluster and a number that are not to be kept, and changes none it leaves |
| PdbStore.PdbApi.ReconcilePdb | internal/controller/reconciler_pdb.go:239-300 | states the store a pass leaves; a pass that goes through gave no pod two budgets in any state if and only if the store it began with was calm, and one that stops early from a calm store did not either; another cluster's budget survives unless it has the cluster-wide name and a pass without a cluster-wide budget deletes that; well-shaped stores stay so |
| PdbStore.OtherBudgetLost | internal/controller/reconciler_pdb.go:391-409 | disabling the budgets of one cluster deletes the rack budget of another whose name collides |
| PdbStore.RackWritesExactly | internal/controller/reconciler_pdb.go:280-300 | writing the racks one by one keeps one budget per pod throughout if and only if at each rack's turn no other budget on it is left to correct |
| PdbStore.WholePassExactly | internal/controller/reconciler_pdb.go:250-262 | sweeping and writing the cluster-wide budget keeps one budget per pod if and only if its name is foreign or the sweep reaches every other budget on the cluster's pods |
| PdbStore.RacksLeaveExactly | internal/controller/reconciler_pdb.go:265-300 | the per-rack pass leaves one budget per rack and nothing else on the cluster's pods if and only if the names are its own and the sweep reaches the rest |
| PdbStore.WholeLeavesExactly | internal/controller/reconciler_pdb.go:250-262 | the cluster-wide pass leaves its budget and nothing else on the cluster's pods if and only if the name is its own and the sweep reaches the rest |
| PdbStore.DisabledLeavesExactly | internal/controller/reconciler_pdb.go:458-466 | disabling leaves no budget on the cluster's pods if and only if the sweep reaches every rack budget |
| PdbStore.ShapedIsCalm | internal/controller/reconciler_pdb.go:239-300 | every store whose budgets are named after what they select is calm for every pass |
| PdbStore.SwappedSelectors | internal/controller/reconciler_pdb.go:303-388 | from budgets whose selectors were swapped by hand the first correction gives a pod two budgets |
| Breaker.Reconciler.HandleReconcileError | internal/controller/reconciler.go:438-500 | counts a failure, or trips at once on a validation error |
| Breaker.Reconciler.Reconcile | internal/controller/reconciler.go:221-322 | one pass through the gates, in their order, with the wait each one asks for; a pass that goes through resets the count |
| Breaker.CountBounded | internal/controller/reconciler.go:438-550 | over every run the count stays within ten |
| Breaker.TrippedHolds | internal/controller/reconciler.go:238-241 | a tripped breaker keeps its count and no resource is reached until a resume |
| Breaker.TrippedShows | internal/controller/reconciler.go:324-365 | while tripped the cluster shows BackoffActive after the first pass that can write it, and nothing else changes |
| Breaker.OnlyResumeReleases | internal/controller/pause_handler.go:68-122 | wherever a tripped breaker was left behind, a pass ran the resume handler |
| Breaker.PauseHolds | internal/controller/pause_handler.go:22-65 | a pause that is stored marks the cluster and changes nothing else, one that is not changes nothing |
| Breaker.ResumeForgives | internal/controller/pause_handler.go:68-122 | a resume that is stored forgives the failures before the pass goes on, one that is not changes nothing |
| Breaker.FailuresAddUp | internal/controller/reconciler.go:438-500 | n consecutive failures add n to the count, up to ten, unless the cluster is marked Paused or ConfigDegraded |
| Breaker.CountIsTheStreak | internal/controller/reconciler.go:307-322 | over every run of passes that are let in and whose writes succeed, the count is the number of failures since the last pass that went through, or ten from the moment such a streak first was that long |
| Breaker.SuccessStartsOver | internal/controller/reconciler.go:313-319 | a pass that goes through before that starts the count over |
| Breaker.TripsExactly | internal/controller/reconciler.go:221-322 | consecutive failures add up to a trip if and only if the cluster is marked neither Paused nor ConfigDegraded |
| Breaker.HoldsExactly | internal/controller/reconciler.go:221-264 | a tripped breaker holds until someone pauses the cluster if and only if the cluster is not still marked Paused |
| Breaker.ReleasedUnasked | internal/controller/reconciler.go:221-264 | a validation error right after a resume trips the breaker and the next pass releases it |
| Breaker.FailingTemplateNeverTrips | internal/controller/reconciler.go:221-264 | a template that fails after a resume resumes again on every pass, so the count stays at one |
| Breaker.BackoffMonotone | internal/controller/reconciler.go:554-570 | from the first failure waits never shorten and stay within two seconds and five minutes |
| Breaker.TrippedWaitsLongest | internal/controller/reconciler.go:554-570 | the cap is reached, and by the tripped breaker |
| Breaker.BackoffDoubles | internal/controller/reconciler.go:554-570 | two seconds after the first failure, twice as long after each further one, up to the cap |

## Left out

- The API server, watches, conflicts and retries, owner references, events, logs, metrics and telemetry: replaced by state and by outcomes that may go either way.
- The Aerospike client, pod exec, quiesce and signals: foreign calls, modelled by their outcomes; reads are taken to see the operator's own writes.
- ACL sync, services, network policies, monitoring, RBAC and the seeds finder: comparisons and updates that would only add easy members.
- Pod template assembly and SHA-256 hashes: hashes are values that are equal or not.
- Access-address placeholders (internal/configgen/network.go): key-by-key injection with no property beyond its cases.
- Template scheduling, storage, resources, image and size merges: each field is replaced whole.
- Warnings and message texts of the validators: only whether an error is reported is modelled.
- Aliasing of nested maps and slices: config trees are values, so the deep copies of internal/utils/merge.go are the identity here.
- Numbers are exact: config numbers are reals, so integers beyond 2^53 that collide as float64, NaN and json.Number are not modelled; `%v` and `%g` are a parameter of the printer.
- Go's byte order of keys is modelled as the order of characters.
- The two-phase protocol takes change values as text; the rendering of a config value into a command is not part of it.
- RollingRestart.RestartBound: for one rack, a fixed template and no scaling; the next rack may start while the last replacement of this one is down, because a rack without stale pods returns before the guard.
- Admission.Defaulter.Default: the monitoring and host-network defaults are not modelled.
- TwoPhase.TwoPhaseVerdict: a command that fails is taken to change nothing on its node, and nodes of different pods to be different.
- DiffToNodes.CommitRunsTheNewConfig: how a node's flat parameters read as a config tree is a parameter, under which setting one parameter amounts to the one change it was built from.
- DiffSoundness.DiffSound: keys are nonempty, dot-free and no nested section is called namespaces; namespace names are nonempty.
- DiffClasses.Diff: said of configs without a nested section called namespaces; that no place is reported twice, of keys and names as for DiffSoundness.DiffSound.
- DiffToNodes.AbortNamesExactly: for pods and nodes that are all different and updates that write no text the node already has.
- RackSizes.AdmittedLeavesOneExactly: that Kubernetes rounds a percentage up is taken as given.
- Operations.OperationsRun: for one operation id and runs whose status writes succeed; a spec that goes back to an earlier id starts over.
- Reclaim.ReclaimSafe: relies on a settled StatefulSet status counting the pods the set owns and on the list holding a pod at most once.
- Readiness.CheckScaleDownReadiness: which listed pod is the StatefulSet's own is part of the view; terminating pods count by their Ready condition alone, as in the code.
- PdbStore.PdbApi.ReconcilePdb: a rack's budget is a function of its id, and selectors other than a whole cluster's or one rack's are taken to select none of the cluster's pods.
- RackSizes.AdmittedBudgetStands: for clusters with no more racks than pods; a rack without pods accepts any budget.
- Breaker.CountBounded: passes of one cluster run one at a time, as the work queue guarantees.
