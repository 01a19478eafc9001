# Verified models of k0s

A Dafny model of those parts of k0s that are small state machines or algorithms in their own right, and
proofs of what they promise. Concurrent code is modelled as a transition system: a state, the atomic steps
of every goroutine, and theorems about every state of every run, for any interleaving and any number of
rounds, readers, writers, processes or stacks. Sequential code is modelled by classes and methods that
update their fields, proved equal to specification functions, about which the theorems are then proved.
Calls that can fail take their failures from parameters, so every statement holds for every failure pattern.

| files | models |
|---|---|
| `Json`, `Stack`, `StackApply` | the stack reconciler: create, update, patch or skip, then prune |
| `StackProofs`, `StackConvergence`, `StackIdempotence` | prune safety, convergence and idempotence of the reconciler |
| `StackContent`, `StackCalls` | what the reconciler delivers, its calls and their order, and when it succeeds |
| `StackApplier`, `Manager` | the file watchers that drive the reconciler |
| `Utf8`, `LogWriter`, `LogProofs` | the chunking log writer |
| `LeaderClient`, `Latest`, `LeaderTasks`, `RootController` | the leadership pipeline |
| `Strings`, `OciArchive`, `Successors` | the OCI layout archive and the selection of image successors |
| `Version` | the version order of the updater |
| `AtomicFile`, `Download` | atomic file replacement and the downloader on top of it |
| `Supervisor`, `Debounce` | process supervision, debouncing |
| `CodePoints`, `FileName`, `FileNameRules` | sanitizing of file names |
| `Basics` | runs of transition systems, folds |

`dafny verify dfyconfig.toml` checks everything.

## What was found

- **Prune safety does not need injective resource IDs.** An object of the stack has an ID in the list of kept
  IDs, whatever other objects share it. Convergence does need it: an object that shares the ID of a kept one is
  never pruned (`StackConvergence.PruneSurvivors`). IDs are injective for groups, kinds and namespaces as
  Kubernetes allows them, with `:` and `@` in names.
- **An apply can succeed without ever getting in sync.** A tag that the configuration recorded on an object
  already has is not part of the patch, so it is not restored on the object. A resource gets in sync if and only if
  the object found at its target yields in this sense (`StackConvergence.Convergence`), and a second apply is
  silent if and only if all of them do (`StackIdempotence.Idempotence`, `StackIdempotence.NotIdempotent`). Retries
  in `ApplyStack` produce objects that do not: they annotate their resources again, so what they create records a
  configuration with tags. Applying the plain manifest to it sends an empty patch, every time
  (`StackIdempotence.StuckForever`). As long as only plain manifests are applied, every object yields
  (`StackIdempotence.UntaggedStaysUntagged`).
- **Applying annotated copies again sends a write** for every object that is in sync already, unless the hash
  collides (`StackIdempotence.AnnotatedApply`, `StackIdempotence.AnnotatedIsOther`).
- **A patch resets only what changed.** A field that somebody else changed on the server is set back exactly if
  the new manifest says something different about it than the last applied one did (`StackContent.ThreeWayMerge`).
- **Version comparison is antisymmetric exactly for versions that do not clash.** Build metadata with leading
  zeros clash: `1.0.0+01` and `1.0.0+1` are both lower than the other. The documentation of `Compare` says
  that build metadata is ignored; the code compares it before the pre-release, and the model follows the code.
- **References to later descriptors are not followed** when successors are added again: `Successors.TakenIffChain`
  says which ones are, `Successors.LaterReferencesAreIgnored` gives the smallest example.
- **A late goroutine of an earlier session can remove the PID file of the next one.** After a stop that timed
  out, this happens in some continuation exactly if the removal on behalf of an earlier process is still to
  come when supervision starts again (`Supervisor.PidFileNamesProcess` and `Supervisor.LateRemoval`).
- **White space at the end of a file name is replaced only if it takes one byte** (`FileName.TrailingSpace`):
  the byte position of a rune is compared to the one of the last byte. A no-break space stays.
- **The third case of the debouncer cannot happen** with timers that discard an unreceived tick when they are stopped.

## Model

| member | source | states |
|---|---|---|
| `Json.PatchRoundTrip` | pkg/applier/stack.go:465-471 | the merge patch between two documents without nulls, applied to the first as section 2 of RFC 7396 says, gives the second |
| `Json.PatchDelivers` | pkg/applier/stack.go:467-471 | a leaf that is new or different in the second document is there after patching any third document |
| `Json.PatchSetsExactly` | pkg/applier/stack.go:467-471 | a leaf of the second document is there after patching if and only if it differs from the first or was there already |
| `Json.PatchRemoves` | pkg/applier/stack.go:467-471 | what is in the first and not in the second document is gone after patching any third one |
| `Json.PatchKeepsForeign` | pkg/applier/stack.go:467-471 | what neither document mentions survives patching |
| `Json.DiffEmpty` | pkg/applier/stack.go:467-470 | if the patch between two documents is empty, then they are equal |
| `Json.DiffSame` | pkg/applier/stack.go:467-470 | the patch between equal documents is empty |
| `StackProofs.IdStringInjective` | pkg/applier/stack.go:504-506 | resource IDs determine group, kind, name and namespace, even with ':' and '@' in names |
| `StackProofs.IdStringCollisions` | pkg/applier/stack.go:504-506 | without the restrictions on group, kind and namespace, different identities share an ID |
| `StackProofs.ApplyAllSafe` | pkg/applier/stack.go:142-201 | applying resources never deletes, and without an error the IDs of all of them are kept |
| `StackProofs.FirstPerKeySound` | pkg/applier/stack.go:311-335 | the collected kinds are deletable and not ignored, and every such kind is represented |
| `StackProofs.FindPrunableSound` | pkg/applier/stack.go:337-359 | searching only reads; what it finds has the label, no owner and no kept ID, and is of a searched kind |
| `StackProofs.DeleteAllSound` | pkg/applier/stack.go:252-276 | deleting deletes only what it is told to, and all of it if it succeeds |
| `StackProofs.PruneDeletes` | pkg/applier/stack.go:243-277 | every delete call of a prune is for an object that has to be pruned, of a discovered, deletable, unignored kind |
| `StackProofs.PruneSafety` | pkg/applier/stack.go:116-212 | under all failures, a delete is only ever sent for an object with the stack's label, without owners, of a prunable kind and not in the stack, and only if pruning was asked for and every resource was applied |
| `StackConvergence.PrepareTags` | pkg/applier/stack.go:479-497 | a prepared resource has the label, the checksum and the last configuration of the plain one, and still proper labels and annotations |
| `StackConvergence.PatchKeepsStrings` | pkg/applier/stack.go:460-477 | a patch between documents with proper labels leaves an object with proper labels |
| `StackConvergence.PatchTags` | pkg/applier/stack.go:460-497 | a patched object gets exactly those of the label, the checksum and the last configuration that its recorded configuration did not have with the same value; the others stay as they were |
| `StackConvergence.ReconcileConverges` | pkg/applier/stack.go:156-200 | through all branches and failures, no other object changes, and a resource that was reconciled successfully is in sync if and only if the object found at its target, if any, yields: each of label and checksum that its recorded configuration already has is on the object itself |
| `StackConvergence.ApplyAllConverges` | pkg/applier/stack.go:142-201 | once all resources were applied, those whose objects yield are in sync, and no others |
| `StackConvergence.FindPrunableComplete` | pkg/applier/stack.go:289-360 | a search without failures finds everything that has to be pruned |
| `StackConvergence.KeyInjective` | pkg/applier/stack.go:314-314 | the keys of kinds determine group and kind |
| `StackConvergence.PruneSurvivors` | pkg/applier/stack.go:243-277 | after a successful prune with a complete search, a labelled object without owners of a prunable kind is still there if and only if its ID was kept |
| `StackConvergence.PruneConverges` | pkg/applier/stack.go:243-277 | a leftover survives a successful prune after a complete search if and only if it shares the ID of a resource in the stack |
| `StackConvergence.Convergence` | pkg/applier/stack.go:116-277 | after a successful apply with pruning, a resource is on the server with label and checksum if and only if the object found at its target, if any, yields; another object without owners of a prunable kind has the label if and only if it had it before and shares the ID of a resource |
| `StackConvergence.NoLeftovers` | pkg/applier/stack.go:116-277 | with group, kind and namespace as Kubernetes allows them, no such other object is left |
| `StackContent.PrepareKeeps` | pkg/applier/stack.go:479-497 | a prepared resource says what the plain one says at every path but those of its label and two annotations: the manifest's own labels and annotations are kept |
| `StackContent.PrepareDrops` | pkg/applier/stack.go:483-488 | labels that are not all strings are dropped, so the stack label is the only one |
| `StackContent.WantedKeeps` | pkg/applier/stack.go:149-155 | what is sent is the manifest, at its own identity, without the namespace if the kind has none |
| `StackContent.Delivery` | pkg/applier/stack.go:116-277 | after a successful apply, with pruning or without, the object of every resource is what it should become, given what was there: created, updated, skipped or patched |
| `StackContent.CreatedContent` | pkg/applier/stack.go:157-185 | a created or updated object says what the manifest says, at every path that is of no concern to the applier |
| `StackContent.SkippedContent` | pkg/applier/stack.go:174-181 | an object in sync stays as it is |
| `StackContent.ThreeWayMerge` | pkg/applier/stack.go:182-188 | what a patched object ends up with, leaf by leaf: exactly which leaves are set, removed and left alone |
| `StackContent.PatchedContent` | pkg/applier/stack.go:460-477 | at every path that is of no concern to the applier, this is the merge of the object, the last applied configuration and the manifest |
| `StackCalls.ApplyOneSucceeds` | pkg/applier/stack.go:144-200 | without failing calls, a resource is applied if and only if its kind is known and there is an object in sync or with a recorded configuration, or none and it has the namespace it needs |
| `StackCalls.ApplySucceeds` | pkg/applier/stack.go:116-212 | without failing calls, an apply succeeds if that holds for all resources, and discovery works |
| `StackCalls.FailuresAreReported` | pkg/applier/stack.go:142-272 | no failure is hidden: an apply succeeds only if all calls that apply or delete something did |
| `StackCalls.ApplyOneCalls` | pkg/applier/stack.go:144-200 | the kind is looked up, then the object, and then the one write is sent that fits: create, update, patch or none |
| `StackCalls.ApplyOrderExactly` | pkg/applier/stack.go:130-140 | resources without a namespace come first, then those with one, both in the order of the stack |
| `StackCalls.PruneOrder` | pkg/applier/stack.go:252-272 | objects with a namespace are deleted before those without one |
| `StackCalls.PrunableExactly` | pkg/applier/stack.go:284-321 | a kind is pruned if and only if it can be deleted, and is neither Endpoints in v1 nor EndpointSlice in discovery.k8s.io/v1 |
| `StackCalls.OwnersExactly` | pkg/applier/stack.go:446-446 | owners are counted by owner references |
| `StackCalls.Spared` | pkg/applier/stack.go:203-335 | under all failures, nothing in the stack, without its label, with owner references, or of an ignored kind is deleted |
| `StackIdempotence.Idempotence` | pkg/applier/stack.go:116-277 | after a successful apply to objects that all yield, applying copies of the same resources once more sends nothing but reads, even under other failures |
| `StackIdempotence.NotIdempotent` | pkg/applier/stack.go:116-277 | if one of the objects does not yield, then the second apply sends a write, provided that no call fails |
| `StackIdempotence.NothingToDo` | pkg/applier/stack.go:173-212 | if everything is in sync and nothing has to be pruned, an apply sends nothing but reads |
| `StackIdempotence.AnnotatedCopies` | pkg/applier/stack.go:75-102 | for an object in sync with a document, the annotated copy of the document is skipped if and only if the hash cannot tell the two apart |
| `StackIdempotence.AnnotatedIsOther` | pkg/applier/stack.go:479-497 | the annotated copy of an untagged document is encoded differently, so a hash without collisions always tells them apart |
| `StackIdempotence.AnnotatedApply` | pkg/applier/stack.go:75-200 | applying an annotated copy to an object in sync sends a write if and only if the hash tells the copy from the original |
| `StackIdempotence.RetriedObject` | pkg/applier/stack.go:75-102 | an object created from an annotated copy does not yield to the original, unless the hash cannot tell them apart: the patch is empty |
| `StackIdempotence.StuckForever` | pkg/applier/stack.go:173-200 | applying the original to such an object succeeds, sends a patch, changes nothing, and leaves it out of sync |
| `StackIdempotence.YieldsNextTime` | pkg/applier/stack.go:460-497 | an object that did not yield to an untagged document will do so after the patch if and only if the patch replaced its recorded configuration |
| `StackIdempotence.UntaggedStaysUntagged` | pkg/applier/stack.go:156-200 | as long as only untagged documents are applied, recorded configurations stay untagged, and such objects yield to everything |
| `StackApply.Stack.Apply` | pkg/applier/stack.go:116-212 | the imperative apply ends in the server state, the calls, the result and the list of kept IDs of the specification |
| `StackApply.Stack.ApplyResources` | pkg/applier/stack.go:142-201 | the loop over the sorted resources, with the kept IDs and the number of errors |
| `StackApply.Stack.ApplyResource` | pkg/applier/stack.go:144-200 | one round of that loop |
| `StackApply.Stack.Prune` | pkg/applier/stack.go:243-277 | pruning is searching and deleting, namespaced objects first; the list of kept IDs is emptied exactly if there was something to delete and all of it was deleted |
| `StackApply.Stack.FindPruneableResources` | pkg/applier/stack.go:337-359 | the loop over the kinds |
| `StackApply.Stack.GetPruneableResources` | pkg/applier/stack.go:417-453 | the objects of a kind that have to be pruned; none if anything fails |
| `StackApply.Stack.CollectKinds` | pkg/applier/stack.go:311-335 | the first deletable, unignored kind of every key |
| `StackApply.Stack.DeleteResources` | pkg/applier/stack.go:252-272 | deletes namespaced objects, then the others, up to the first failure |
| `StackApply.Stack.DeleteSelected` | pkg/applier/stack.go:253-262 | one of the two loops |
| `StackApply.Stack.DeleteResource` | pkg/applier/stack.go:362-375 | an object that is gone already is no failure |
| `StackApplier.NoLostChange` | pkg/applier/stackapplier.go:52-112 | in every state of every run with any number of sessions: if a manifest changed after the last apply began, then something is under way that leads to another apply |
| `StackApplier.NoLostEvent` | pkg/applier/stackapplier.go:83-112 | if a matching event was received after the last apply began, then the timer is armed, a tick is waiting, or the trigger slot is full |
| `StackApplier.Progress` | pkg/applier/stackapplier.go:52-112 | unless cancelled, the applier can always make a step towards an apply that sees the last change |
| `StackApplier.Quiescence` | pkg/applier/stackapplier.go:52-112 | when nothing can happen any more, the last apply began after the last change |
| `StackApplier.StopsWhenCancelled` | pkg/applier/stackapplier.go:73-110 | once cancelled, the runner can get closer to the end of its session, and no other one begins |
| `StackApplier.InvInductive` | pkg/applier/stackapplier.go:52-112 | every step keeps the invariant |
| `Manager.OneRunnerPerPath` | pkg/applier/manager.go:90-193 | over all restarts of the watch loop, at most one runner per path is active, none for an ignored stack, and none when the loop is not running |
| `Manager.EveryStackRuns` | pkg/applier/manager.go:156-193 | every stack has an active runner until it is removed or the loop is told to end |
| `Manager.EveryDirectoryGetsRunner` | pkg/applier/manager.go:125-140 | every directory that is found or created gets a runner, unless it is ignored |
| `Manager.RemovedIsDeleted` | pkg/applier/manager.go:195-215 | a removed stack is deleted as soon as its runner has stopped |
| `Manager.DeleteAfterStop` | pkg/applier/manager.go:195-215 | while a stack is being deleted, no runner is active for it |
| `Manager.NoApplyAfterDelete` | pkg/applier/manager.go:129-215 | between a delete and a later apply of a stack, the stack was created again |
| `Manager.NoDeleteDuringApply` | pkg/applier/manager.go:195-215 | when a delete begins, every apply of the stack that began before has ended |
| `Manager.WaitsEnd` | pkg/applier/manager.go:145-206 | the waits for runners do not deadlock: every awaited runner was told to stop and can get closer to it |
| `Manager.InvInductive` | pkg/applier/manager.go:90-215 | every step keeps the invariant |
| `Utf8.BoundaryIsCut` | internal/pkg/log/writer.go:77-84 | near a rune boundary, a rune can be decoded backwards exactly at the boundary |
| `Utf8.BoundarySplits` | internal/pkg/log/writer.go:77-84 | a boundary splits valid text into valid texts |
| `LogWriter.Writer.constructor` | internal/pkg/log/writer.go:26-32 | a new writer is empty |
| `LogWriter.Writer.Write` | internal/pkg/log/writer.go:35-38 | a write ends in the state of the specification that takes one byte at a time |
| `LogWriter.Writer.WriteBytes` | internal/pkg/log/writer.go:40-94 | the outer loop does so, and terminates |
| `LogWriter.Writer.FillAndDrain` | internal/pkg/log/writer.go:44-92 | one round of it does so for the bytes that fit into the buffer |
| `LogWriter.Writer.DrainLines` | internal/pkg/log/writer.go:48-73 | logs all complete lines and moves the rest to the front |
| `LogWriter.Writer.LogLines` | internal/pkg/log/writer.go:49-73 | the inner loop |
| `LogWriter.Writer.LogLine` | internal/pkg/log/writer.go:60-70 | the end of a line |
| `LogWriter.Writer.LogChunk` | internal/pkg/log/writer.go:75-92 | a full buffer |
| `LogWriter.Writer.FindCut` | internal/pkg/log/writer.go:77-84 | finds the cut of a full buffer |
| `LogWriter.FindCutOf` | internal/pkg/log/writer.go:78-84 | the loop that steps back until a rune ends |
| `LogProofs.SplitIndependence` | internal/pkg/log/writer.go:35-94 | entries and final state do not depend on how the stream is cut into writes |
| `LogProofs.NothingLost` | internal/pkg/log/writer.go:42-92 | the logged texts and the buffer are the input, up to carriage returns and newlines |
| `LogProofs.TrimCRExactly` | internal/pkg/log/writer.go:60-61 | exactly the trailing carriage returns are stripped |
| `LogProofs.PlainLine` | internal/pkg/log/writer.go:42-73 | a line that fits into the buffer with its carriage returns is logged unchunked and without them |
| `LogProofs.EntriesAreWellFormed` | internal/pkg/log/writer.go:42-92 | between writes the buffer is not full and has no newline; no entry is longer than the buffer, has a newline or ends in a carriage return; chunks are numbered without gaps |
| `LogProofs.FeedWholeLine` | internal/pkg/log/writer.go:42-92 | what exactly is logged for a line of any length |
| `LogProofs.LineByLine` | internal/pkg/log/writer.go:42-92 | lines are logged independently of each other, and unchunked if they are shorter than the buffer |
| `LogProofs.CutIsLast` | internal/pkg/log/writer.go:77-84 | a full buffer is cut at the last place where a rune ends, or not at all if there is none |
| `LogProofs.CutAt` | internal/pkg/log/writer.go:77-84 | in valid UTF-8 without U+FFFD, that is the last rune boundary |
| `LogProofs.CutsBetweenRunes` | internal/pkg/log/writer.go:75-92 | for valid UTF-8 without U+FFFD and buffers of at least four bytes, no cut goes through a rune |
| `LeaderClient.CallsAlternate` | pkg/leaderelection/client.go:144-194 | in every interleaving over any number of rounds, calls do not overlap and alternate between Leading and Pending; at the end of a round every announced lead has been retracted |
| `LeaderClient.AnnouncesInTime` | pkg/leaderelection/client.go:167-190 | a callback announces the lead if and only if its round is still going on when it swaps the flag |
| `LeaderClient.SilentAfterReturn` | pkg/leaderelection/client.go:144-194 | no call happens after Run has returned |
| `LeaderClient.NoDeadlock` | pkg/leaderelection/client.go:183-190 | Run can always get closer to its end once its context is done, the wait for the channel always ends, and nobody can set it back |
| `LeaderClient.InvInductive` | pkg/leaderelection/client.go:157-194 | every atomic step keeps the invariant |
| `Latest.ChannelsAreSound` | internal/sync/value/latest.go:72-91 | no channel is closed twice, the installed cell's channel is open, every replaced cell's channel is closed or about to be closed by exactly one call |
| `Latest.PeekedPairs` | internal/sync/value/latest.go:72-84 | a peeked value and channel are from one cell that was installed during the call; if it is outdated, its channel is closed or a call can close it now |
| `Latest.Refines` | internal/sync/value/latest.go:72-91 | the atomic operations refine a board on which values are installed and replaced ones expire |
| `Latest.InstallsGiven` | internal/sync/value/latest.go:72-91 | Set installs the value it was given, Peek installs the zero value if there is none, and nothing else installs anything |
| `Latest.PeekReturns` | internal/sync/value/latest.go:72-84 | a peek that finds a value returns it with its channel right away; one that installs the zero value returns that |
| `Latest.CallsFinish` | internal/sync/value/latest.go:72-91 | every call finishes within three steps of its own |
| `Latest.ExpiryIsEnabled` | internal/sync/value/latest.go:87-91 | a replaced value can always expire |
| `Latest.InvInductive` | internal/sync/value/latest.go:72-91 | every atomic step keeps the invariant |
| `LeaderTasks.BoardSteps` | pkg/leaderelection/tasks.go:14-16 | the status changes exactly as a latest value may |
| `LeaderTasks.TasksAreForLeadingCells` | pkg/leaderelection/tasks.go:23-46 | every task is for a Leading cell and is told that the lead is lost only after its cell was replaced; the running one is the last one, for the cell peeked last |
| `LeaderTasks.EveryLeadHasTask` | pkg/leaderelection/tasks.go:23-46 | once a cell that says Leading has been peeked, there is a task for it |
| `LeaderTasks.OneTaskPerCell` | pkg/leaderelection/tasks.go:23-46 | no two tasks are for the same cell, and later ones are for later cells |
| `LeaderTasks.LostLeadCancels` | pkg/leaderelection/tasks.go:27-37 | once its cell was replaced, even by another Leading one, a task's context gets cancelled, and nobody can prevent it |
| `LeaderTasks.ReturnsWhenDone` | pkg/leaderelection/tasks.go:40-44 | once the context is done the loop can get closer to its return, and until then to the next status when the last one expires |
| `RootController.OneGenerationInTheObservedMode` | pkg/autopilot/controller/root_controller.go:118-163 | at most one generation of sub controllers is active; while waiting, its mode is the status observed last, which is current, has expired, or can expire |
| `RootController.ReturnsLast` | pkg/autopilot/controller/root_controller.go:134-140 | Run returns only when the elector is done and no generation is active |
| `RootController.NoDeadlock` | pkg/autopilot/controller/root_controller.go:118-163 | unless the status has not expired and nobody wants it to stop, a step is enabled that gets the loop closer to that, or to its return |
| `OciArchive.FoundIsMembership` | pkg/airgap/ociartifactsbundler.go:480-486 | searching the sorted index decides membership |
| `OciArchive.InsertSorted` | pkg/airgap/ociartifactsbundler.go:525-525 | inserting at the position found keeps the index sorted and adds exactly the digest |
| `OciArchive.NeighboursDecide` | pkg/airgap/ociartifactsbundler.go:508-509 | the two neighbours have another algorithm if and only if no stored digest has this one |
| `OciArchive.Archive.Push` | pkg/airgap/ociartifactsbundler.go:489-530 | the imperative push ends in the state and the result of the specification, with any write or the verification failing |
| `OciArchive.PushResult` | pkg/airgap/ociartifactsbundler.go:489-530 | a blob is pushed if and only if it is wanted, no needed write fails, and size and digest are right; then exactly it is indexed, and the stream gained the missing directories and the blob; failed writes and verifications break the writer |
| `OciArchive.PushRefused` | pkg/airgap/ociartifactsbundler.go:490-500 | invalid digests, broken writers and known digests are turned down if and only if they are such, without any change |
| `OciArchive.ValidDigests` | pkg/airgap/ociartifactsbundler.go:490-493 | valid digests are those of SHA-256, SHA-384 and SHA-512 with as many hexadecimal digits as it takes |
| `OciArchive.Archive.Exists` | pkg/airgap/ociartifactsbundler.go:480-486 | membership in the index, or an error if the writer is broken |
| `OciArchive.PushKeepsInv` | pkg/airgap/ociartifactsbundler.go:489-530 | every push keeps the archive in order, and a broken one as it is |
| `OciArchive.ArchiveIsSound` | pkg/airgap/ociartifactsbundler.go:448-530 | after any sequence of pushes, broken or not, the index is strictly sorted and holds exactly the digests that were written completely and verified; directories come once and before their blobs |
| `OciArchive.BrokenForGood` | pkg/airgap/ociartifactsbundler.go:458-477 | once broken, nothing more is emitted |
| `Successors.FindSuccessors` | pkg/airgap/ociartifactsbundler.go:286-329 | the loops compute the specification |
| `Successors.SuccessorsExactly` | pkg/airgap/ociartifactsbundler.go:286-359 | the answer is everything without a platform and one best match, followed by exactly those that do not match and lead to the former by references to ever earlier ones of their kind, in order |
| `Successors.RetainBestPlatformOnly` | pkg/airgap/ociartifactsbundler.go:331-359 | sorts, and truncates behind the first descriptor with a platform |
| `Successors.KeepsPlatformless` | pkg/airgap/ociartifactsbundler.go:293-301 | every successor without a platform is kept, as often as it occurs |
| `Successors.KeepsOneBest` | pkg/airgap/ociartifactsbundler.go:331-359 | exactly one best match is kept if anything matches, and none otherwise |
| `Successors.FailsWithoutImages` | pkg/airgap/ociartifactsbundler.go:303-308 | fails if and only if there are images, but none without a platform, and the best match is none |
| `Successors.TakenIffChain` | pkg/airgap/ociartifactsbundler.go:310-325 | a discarded descriptor is added again if and only if a chain of references to ever earlier ones leads to a kept one |
| `Successors.BadReferencesAreIgnored` | pkg/airgap/ociartifactsbundler.go:314-321 | only descriptors with a valid digest for a reference, to a kept or earlier one, are added again |
| `Successors.ReaddExtends` | pkg/airgap/ociartifactsbundler.go:310-325 | what was kept stays in front, and everything that refers to it directly is added again |
| `Successors.LaterReferencesAreIgnored` | pkg/airgap/ociartifactsbundler.go:310-325 | references to descriptors that are added later are not followed |
| `Version.ComparePrereleases` | pkg/autopilot/updater/api.go:88-126 | the loop computes the specification |
| `Version.CompareVersions` | pkg/autopilot/updater/api.go:38-75 | so does the comparison |
| `Version.AntisymmetricUnlessClash` | pkg/autopilot/updater/api.go:38-179 | swapping versions reverses the result if and only if they do not clash |
| `Version.Antisymmetric` | pkg/autopilot/updater/api.go:38-179 | versions without leading zeros do not clash |
| `Version.LeadingZerosAreNotAntisymmetric` | pkg/autopilot/updater/api.go:128-179 | build metadata 01 and 1 are lower than each other |
| `Version.Transitive` | pkg/autopilot/updater/api.go:38-179 | without leading zeros, the comparison is transitive, and strictly so |
| `Version.AgreesWithSemVer` | pkg/autopilot/updater/api.go:38-179 | with equal build metadata, and numbers that fit into 64 bits, it is the precedence of section 11 of Semantic Versioning 2.0.0 |
| `Version.ComparesAsPrecedence` | pkg/autopilot/updater/api.go:38-179 | versions are ordered by major, minor and patch version, then by build metadata in the order of section 11 with none lower than any, then by pre-release |
| `Version.MetadataDiffer` | pkg/autopilot/updater/api.go:56-58 | different build metadata are never equal in that order |
| `Version.SplitExactly` | pkg/autopilot/updater/api.go:92-93 | splitting gives parts without dots that make up the text |
| `AtomicFile.Atomic.constructor` | internal/pkg/file/atomic.go:98-115 | opening adds an empty temporary file and nothing else |
| `AtomicFile.Atomic.Write` | internal/pkg/file/atomic.go:176-183 | appends what is accepted; nothing once closed |
| `AtomicFile.Atomic.Finish` | internal/pkg/file/atomic.go:200-202 | finishes at the target |
| `AtomicFile.Atomic.FinishWithBaseName` | internal/pkg/file/atomic.go:206-214 | finishes at another name in the same directory, and rejects names that lead elsewhere |
| `AtomicFile.Atomic.FinishAt` | internal/pkg/file/atomic.go:216-300 | for every failure pattern, ends in the state and the result of the specification |
| `AtomicFile.Atomic.Close` | internal/pkg/file/atomic.go:304-314 | removes the temporary file, and does nothing once closed |
| `AtomicFile.Do` | internal/pkg/file/atomic.go:133-143 | opens, writes, finishes and closes as specified |
| `AtomicFile.FinishStep` | internal/pkg/file/atomic.go:216-300 | finishing either puts exactly what was written at the target or leaves all files alone, but for a temporary file whose removal fails |
| `AtomicFile.FinishSucceeds` | internal/pkg/file/atomic.go:216-300 | finishing succeeds if and only if the file is not closed, and nothing fails that has to be done; what is not supported does not count |
| `AtomicFile.AnyCalls` | internal/pkg/file/atomic.go:176-326 | for any sequence of calls and any failures, at most one rename happens, it is complete, and no other file is touched |
| `AtomicFile.DoIsAtomic` | internal/pkg/file/atomic.go:133-143 | success means exactly the written bytes with the wanted attributes at the target and no other change; failure means no change, unless the temporary file could not be removed |
| `AtomicFile.DoSucceeds` | internal/pkg/file/atomic.go:133-143 | an atomic write succeeds if and only if writing does and nothing fails that has to be done |
| `Download.Download` | pkg/autopilot/download/downloader.go:47-106 | succeeds if and only if names, transfer, hash and file operations work out, and then with complete, hash-checked content at the returned path and no other change; fails without a change |
| `Download.Conclude` | pkg/autopilot/download/downloader.go:98-106 | if and only if it is wanted, the name is accepted and finishing works, the complete file appears under the name; otherwise nothing does |
| `Download.Receive` | pkg/autopilot/download/downloader.go:86-89 | succeeds if and only if every write is accepted, and then the file and the hasher got everything |
| `Supervisor.StrictlySequential` | pkg/supervisor/supervisor.go:235-297 | when a process is spawned, all others of the session have exited and their PID file removal is behind them |
| `Supervisor.PidFileIsRemoved` | pkg/supervisor/supervisor.go:67-76 | when a process is spawned, the PID file names no other one of the session, unless its removal failed |
| `Supervisor.OneStartMessage` | pkg/supervisor/supervisor.go:264-281 | at most one message is sent about the start, and exactly one by the time Supervise returns |
| `Supervisor.StopMeansAlive` | pkg/supervisor/supervisor.go:300-329 | between calls, the stop function is set if and only if the loop is alive |
| `Supervisor.NothingSpawnedAfterStop` | pkg/supervisor/supervisor.go:319-329 | nothing is spawned between the return of StopWith and the next Supervise |
| `Supervisor.PidFileNamesProcess` | pkg/supervisor/supervisor.go:67-77 | if earlier sessions had removed their PID files when this one began, the PID file names the watched process from when it was written until the process has been waited for |
| `Supervisor.LateRemoval` | pkg/supervisor/supervisor.go:67-77 | otherwise, from every such state there is a way to go on in which the new PID file is removed right after it was written |
| `Supervisor.TimedOutStop` | pkg/supervisor/supervisor.go:111-183 | such a state can be reached: a stop that times out returns while the process runs |
| `Supervisor.NoDeadlock` | pkg/supervisor/supervisor.go:203-329 | every call can always get closer to its return |
| `Supervisor.Respawns` | pkg/supervisor/supervisor.go:282-297 | a process that has ended is replaced: unless cancelled, the loop can get closer to the next one |
| `Supervisor.InvInductive` | pkg/supervisor/supervisor.go:67-329 | every step keeps the invariant |
| `Debounce.Run` | pkg/debounce/debounce.go:39-89 | the callbacks are exactly the promised ones, in order: an accepted item, upon the first tick after a full timeout, unless a newer one was accepted before; a tick never finds no item |
| `Debounce.DeliveredOnce` | pkg/debounce/debounce.go:45-88 | every item is delivered at most once, and every tick delivers at most one |
| `Debounce.FilteredItemsDontMatter` | pkg/debounce/debounce.go:55-57 | leaving out a filtered item changes neither what is delivered nor when |
| `FileName.SanitizeFileName` | internal/http/filename.go:111-212 | the checks and the lazily built name amount to the map over runes |
| `FileName.Replace` | internal/http/filename.go:156-211 | the loop does so, and reports the first invalid byte |
| `FileName.DecodeThenJoin` | internal/http/filename.go:158-164 | decoding gives runes that make up the text |
| `FileName.JoinThenDecode` | internal/http/filename.go:158-164 | runes are decoded from the text they make up |
| `FileName.SanitizedIsSafe` | internal/http/filename.go:111-212 | a sanitized name has the same number of runes, at most 255 bytes, is not empty, a dot or two, has no separator or other replaced character, and is not reserved |
| `FileNameRules.AcceptedExactly` | internal/http/filename.go:126-182 | a name is accepted if and only if, normalized, it has 1 to 255 bytes, is not a dot or two, names no device, and is valid UTF-8 |
| `FileNameRules.RefusedExactly` | internal/http/filename.go:126-182 | every refusal has its reason, and the first one that applies is given |
| `FileNameRules.ReplacedExactly` | internal/http/filename.go:164-204 | a rune is replaced if and only if its code point is special or a direction modifier, or it is a control character, leading white space, or a trailing dot or white space of one byte |
| `FileNameRules.ReservedExactly` | internal/http/filename.go:145-154 | the reserved names are con, prn, aux, nul, and com and lpt with a digit or a superscript one, two or three |
| `FileNameRules.InvalidExactly` | internal/http/filename.go:177-180 | invalid UTF-8 is reported at the first byte that starts no rune |
| `CodePoints.EncodeThenCodePoint` | internal/http/filename.go:164-164 | every code point but the surrogates has an encoding |
| `CodePoints.CodePointThenEncode` | internal/http/filename.go:164-164 | and there are no other encodings |
| `FileName.Idempotent` | internal/http/filename.go:111-212 | sanitizing a sanitized name in normal form returns it unchanged |
| `FileName.TrailingSpace` | internal/http/filename.go:187-187 | a sanitized name ends in white space if and only if the name ended in white space of several bytes behind something else |
| `FileName.NoBreakSpaceStays` | internal/http/filename.go:187-187 | a name with a no-break space at its end is not changed |

## Left out

- Command line, installation, configuration, certificates, tokens, and all clients of Kubernetes, etcd, Helm, registries and HTTP: plumbing around libraries that are not part of this model.
- Hashes, normalization form C, Unicode tables, JSON encoding, tar encoding, sorting and path joining: functions given as parameters, with the laws that are needed.
- The API server: a map of objects; other clients that change it during an apply, resource versions, admission, and the cascades of a foreground deletion are not modelled.
- Kinds that are served by two API groups at once: their objects are different objects in the model.
- Waiting for custom resource definitions and resets of the REST mapper: what is served is fixed during an apply. Group versions from discovery that cannot be parsed are not modelled.
- The search for leftovers in parallel goroutines: the kinds are searched one after the other, in any order; what is found does not depend on it, and the order of deletions is arbitrary.
- StackApply.Stack.ApplyResource: works on copies of the resources; that preparing them changes the caller's resources in place is described by AnnotatedCopies and AnnotatedApply instead.
- StackConvergence.Convergence: requires resources with metadata, one per identity, objects at their targets whose labels and annotations are strings, and a search without failures, since list errors are ignored by the code.
- StackContent.Delivery: requires that no resource is listed twice, since the second turn starts from what the first one left; no complete search is needed.
- LogWriter.Writer.Write: requires a chunk length of at least one, since the loop does not terminate otherwise; chunk numbers do not wrap around.
- Version.CompareVersions: takes parsed versions; versions that cannot be parsed make the code panic.
- Version.AgreesWithSemVer: requires pre-release identifiers that are not empty and have no leading zeros, as the standard does.
- AtomicFile.Atomic.FinishWithBaseName: does not model the weaker guarantees on Windows.
- AtomicFile.Atomic.FinishAt: does not model concurrent calls of Write.
- Download.Download: the hash is that of everything that was ever written to the configured hasher, since it is not reset.
- Supervisor: the cleanup of a process left by an earlier instance, termination signals and their timeouts are reduced to the moment when waiting ends; the environment of the process is not modelled.
- Supervisor.NoDeadlock: says that a step towards the return is enabled, not that the scheduler takes it; the same goes for the other progress lemmas.
- RootController: the sub controllers are a routine that runs until it is cancelled or returns on its own.
- StackApplier: the time that the debounce timer takes, and the retries within an apply.
- Manager: writing the notice into ignored directories, and failures to set up the watcher, which end the loop before anything was started.
