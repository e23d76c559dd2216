# Upgrade scripts and cluster tooling: a verified model

This project models the protocols and data structures of the repository in Dafny and proves what they keep over all
runs and all inputs. `dafny verify dfyconfig.toml` checks everything.

| module | models |
|---|---|
| `StorageMigration` | the optimistic trimming of a CRD's stored versions while other clients write |
| `UpgradeRun`, `UpgradeState` | the guarded upgrade of the providers: temporary changes, their mirror in local flags, and the recovery |
| `CapsulePlan`, `CapsulePatch`, `KubeadmEgress` | two of the temporary changes: JSON Patch do and undo over a plan of targets; policies with ignored errors |
| `ContentDiff` | the flattening of objects and the loss report built on it |
| `Spinner`, `Status` | the start/stop protocol of the CLI spinner as interleaved threads, and its one controller |
| `Orphans`, `Stepping`, `ProgressWait` | removal of orphaned control-plane resources, one-minor-at-a-time bumps, deadlines that start again on progress |
| `Versions`, `VersionOrder`, `VersionPrecedence` | parsing, printing and ordering of versions |
| `YamlStream` | the streaming document splitter and its inverse |
| `ErrorAggregate`, `ConcurrentCollect` | error trees, and the goroutines that collect errors through a channel |
| `Routes` | the self-healing routing table of kindnetd |
| `PruneYaml` | removal of a key from a YAML tree in place |
| `NodeNames` | names of nodes, the bootstrap node and the API server's endpoint |
| `Text`, `Decimal`, `Json`, `Options` | strings, numerals, documents and optional values |

What the cluster, the kernel, the clock, the network and other clients do is a parameter that every statement holds
for: `fails: nat -> bool` says which requests fail, event lists say what others do in between, and so on. Objects
that the code updates in place are classes, loops are loops; each is proved against a function or relation on values,
and the laws are lemmas about those. Threads are state machines over their atomic steps.

## Where the code does less than it says

- Storage migration looks for `not found` anywhere in the error text (`upgrade/resources/scripts/upgrade-providers.py`, line 648), so a
  missing conversion webhook passes for a missing object: `StorageMigration.SafeIffRefusalsAreRecognised`.
- Failures halfway through the Capsule exclusion, the egress policies or the deletion of the webhooks leave changes
  that no flag records, and an interrupted Capsule restore can make the recovery itself fail: `UpgradeRun.Run.Execute`,
  with `UpgradeRun.HalfAnExclusion` as an example. An egress policy whose look-up fails is later deleted as the run's
  own (`UpgradeRun.ForeignPolicyDeleted`), one whose delete fails stays (`KubeadmEgress.ClosedIff`), and a Capsule
  target whose look-up fails is not excluded.
- `diff_content` cannot tell `true` from `1`, does not see empty mappings, and confuses keys that have dots, as labels
  and annotations do, or end in an index: `ContentDiff.FaithfulIffSafe`, `ContentDiff.FlattenShowsVisible`.
- Trailing white space of a version is not ignored when it holds a line break (`pkg/internal/version/version.go`, lines 88-93):
  `Versions.TrailingSpaceIgnoredIff`.
- Pre-release identifiers that the integer type rejects can break the order of versions:
  `VersionPrecedence.SettledIff` and `VersionPrecedence.RankedIff` say exactly which.
- The spinner's comment says that stopping is preferred (`pkg/internal/cli/spinner.go`, line 116); a select chooses at random:
  `Spinner.FramesAfterSignal`. Another (line 146) says that Stop does nothing if the channel is full; it blocks, holding
  the mutex, and with two callers that is a deadlock: `Spinner.TwoStopsDeadlock`.
- A phase with an empty text starts the spinner and is never ended: `Status.InStepIff`.
- A last separator line with text on it and no line break drops the document before it:
  `YamlStream.LastRuleMayLoseDocument`.
- In a single-stack cluster a node without a pod network makes the reconciliation fail instead of being ignored:
  `Routes.NoPodCIDRIsIgnoredIff`.
- A bump can leave the network policy widened: when the removal of the webhook raises, which is outside the try block
  (`upgrade/resources/scripts/upgrade-provisioner.py`, lines 2136-2138), when the narrowing raises, and, with the bump
  reporting success, when the look-up before it fails: `Stepping.Upgrade.Guarded`. The policy that the finally block
  writes is rendered from the nodes and need not be the one that was found.
- An aggregate of several empty aggregates prints as a pair of brackets: `ErrorAggregate.NothingToPrint`.

## Model

| member | source | states |
|---|---|---|
| `StorageMigration.MigrateCrd` | upgrade/resources/scripts/upgrade-providers.py:637-651 | The loop, with other clients at work between any two requests, lists what is there and ends exactly as the step-by-step specification `Finish` does, including the exception for an answer that is not tolerated. |
| `StorageMigration.TrimIsSafe` | upgrade/resources/scripts/upgrade-providers.py:637-651 | For every interleaving with creations, updates, deletions and CRD edits: when the status patch takes effect, even if its answer is lost, storage is v1beta2 and every persisted object is encoded in it, if refusals by the connection are not mistaken for answers. |
| `StorageMigration.LeftBehind` | upgrade/resources/scripts/upgrade-providers.py:641-649 | Without that assumption: an object left in an older version is one whose own apply never reached the server and was refused with a text that the pattern tolerates. |
| `StorageMigration.ToleratedAnswers` | upgrade/resources/scripts/upgrade-providers.py:646-649 | A tolerated NotFound means the object is gone; a tolerated Conflict means somebody wrote it since the listing, so it already is in v1beta2 if the CRD is unedited. |
| `StorageMigration.SightedFinish` | upgrade/resources/scripts/upgrade-providers.py:650-651 | The resourceVersion precondition keeps the patch from taking effect when the storage version was changed since the CRD was read. |
| `StorageMigration.SafeIffRefusalsAreRecognised` | upgrade/resources/scripts/upgrade-providers.py:648-649 | The migration is safe for all runs if and only if no refusal that never reached the object prints a tolerated text. |
| `StorageMigration.MissingWebhookIsTolerated` | upgrade/resources/scripts/upgrade-providers.py:648 | The answer of a missing conversion webhook service is such a text. |
| `StorageMigration.MistakenRefusal` | upgrade/resources/scripts/upgrade-providers.py:641-651 | For every tolerated text, a run over a network that prints it drops v1alpha4 from storedVersions while an object is still persisted in it. |
| `StorageMigration.RewriteStep` | upgrade/resources/scripts/upgrade-providers.py:641-649 | One iteration of the loop takes the specified run one object further. |
| `StorageMigration.Server.Serve` | upgrade/resources/scripts/upgrade-providers.py:637-651 | The requests of the other clients happen one after the other. |
| `StorageMigration.Server.List` | upgrade/resources/scripts/upgrade-providers.py:640 | The listing has every object with its present uid and resourceVersion. |
| `StorageMigration.Server.Apply` | upgrade/resources/scripts/upgrade-providers.py:646-647 | A server-side apply guarded by uid and resourceVersion: rewritten, gone, in conflict, or refused on the way with or without effect. |
| `StorageMigration.Server.Patch` | upgrade/resources/scripts/upgrade-providers.py:650-651 | Refused on the way, or without a trace when the CRD was edited since it was read; when it takes effect only the stored versions change, which settles a CRD stored in v1beta2, and the new revision keeps the same patch from going through again.  An answer that is lost hides which it was. |
| `Spinner.InvStep` | pkg/internal/cli/spinner.go:99-168 | With at most one client calling Start and Stop, every atomic action of every thread keeps the mutex, handshake and frame invariant. |
| `Spinner.ReachableInv` | pkg/internal/cli/spinner.go:99-168 | So the invariant holds in every reachable state, with any number of writers. |
| `Spinner.OneLoopEmptySlot` | pkg/internal/cli/spinner.go:111-148 | At most one goroutine is in its loop; a Stop about to signal finds the slot empty; `running` is set exactly while a goroutine loops. |
| `Spinner.NoFrameAfterStop` | pkg/internal/cli/spinner.go:111-151 | Between the return of a Stop and the next Start no frame is written. |
| `Spinner.SomebodyMoves` | pkg/internal/cli/spinner.go:99-168 | With one controller, a state with a call in flight always has an internal step: no reachable state is deadlocked. |
| `Spinner.InternalDecreases` | pkg/internal/cli/spinner.go:99-168 | Every internal step uses up a rank, whatever the number of controllers. |
| `Spinner.CallsReturn` | pkg/internal/cli/spinner.go:99-168 | From every reachable state the calls in flight return within that rank. |
| `Spinner.InternalPathsAreShort` | pkg/internal/cli/spinner.go:99-168 | No schedule can put them off: without ticks and new calls every path is at most that long. |
| `Spinner.FramesAfterSignal` | pkg/internal/cli/spinner.go:115-134 | With one controller, from every reachable state with a signal in the slot and a goroutine at its select, any number of frames can be written before the signal is received; with more controllers from those in which the mutex is free. |
| `Spinner.TwoStopsDeadlock` | pkg/internal/cli/spinner.go:124-151 | Two Stop callers and one tick reach a state from which, whatever is called later, no call ever returns: one holds the mutex and blocks on the full channel, the goroutine waits for the mutex. |
| `Spinner.DeadlockStays` | pkg/internal/cli/spinner.go:99-168 | Nothing but new calls can happen in such a state, and none of them gets the mutex. |
| `Spinner.CallsCanReturnIffOneController` | pkg/internal/cli/spinner.go:99-168 | In every reachable state every call can still return, if and only if at most one client calls Start and Stop. |
| `Spinner.SecondStopIsUnanswered` | pkg/internal/cli/spinner.go:140-151 | Without a tick two Stop callers can reach a state in which the goroutine is gone and one of them still waits for its answer. |
| `Spinner.UnansweredStays` | pkg/internal/cli/spinner.go:99-168 | It goes on waiting on every path without a new Start. |
| `Spinner.LaterStartReleases` | pkg/internal/cli/spinner.go:99-151 | A later Start can release it: the new goroutine takes the old signal and stops at once. |
| `Status.StatusLine.Start` | pkg/internal/cli/status.go:60-70 | Closes the open phase as a success, opens the new one, and asks for suffix and start, or announces it. |
| `Status.StatusLine.Finish` | pkg/internal/cli/status.go:74-91 | End(): nothing without an open phase; otherwise stop, rewind and exactly one closing line. |
| `Status.InStepIff` | pkg/internal/cli/status.go:60-91 | Over any run of calls, the spinner has been asked to turn just while a phase is open, if and only if no phase has an empty text. |
| `Status.EveryPhaseEndsOnce` | pkg/internal/cli/status.go:60-91 | Every phase ends in exactly one line, in the order they were begun; only the open one has none yet. |
| `ContentDiff.FlattenInto` | upgrade/resources/scripts/upgrade-providers.py:304-315 | The loop with in-place updates computes the recursive flattening. |
| `ContentDiff.ChildrenApart` | upgrade/resources/scripts/upgrade-providers.py:304-315 | With safe keys no path comes from two children: flattening never overrides. |
| `ContentDiff.ChildPathsDisjoint` | upgrade/resources/scripts/upgrade-providers.py:304-315 | No path leads through two different children. |
| `ContentDiff.FlattenInjective` | upgrade/resources/scripts/upgrade-providers.py:304-315 | With safe keys, equal paths and leaves mean documents that differ in nothing visible. |
| `ContentDiff.AlikeFlatten` | upgrade/resources/scripts/upgrade-providers.py:304-315 | Documents that differ in nothing visible have equal paths and leaves. |
| `ContentDiff.FlattenShowsVisible` | upgrade/resources/scripts/upgrade-providers.py:304-315 | Both directions together: the paths determine exactly what is visible, that is all but mappings in which no value is. |
| `ContentDiff.FullAlikeIsSame` | upgrade/resources/scripts/upgrade-providers.py:304-315 | Without empty mappings nothing is invisible. |
| `ContentDiff.SameIsAlike` | upgrade/resources/scripts/upgrade-providers.py:304-315 | Equal documents never differ in anything visible, with empty mappings or without. |
| `ContentDiff.FlattenFaithful` | upgrade/resources/scripts/upgrade-providers.py:304-315 | With safe keys and without empty mappings, equal paths and leaves mean equal documents, and the other way round. |
| `ContentDiff.FaithfulIffSafe` | upgrade/resources/scripts/upgrade-providers.py:304-315 | For every set of characters: the paths determine all documents whose keys are made of them if and only if it has no dot and not both brackets and a digit. |
| `ContentDiff.DiffContent` | upgrade/resources/scripts/upgrade-providers.py:318-336 | The report has exactly the lost or changed paths and vanished objects, and exactly the additions, each once, sorted by object and then by path. |
| `ContentDiff.NothingLostIff` | upgrade/resources/scripts/upgrade-providers.py:318-336 | Nothing is reported lost if and only if every object of `before` is in `after` with its flattened map a sub-map. |
| `ContentDiff.EmptyDiffIff` | upgrade/resources/scripts/upgrade-providers.py:318-336 | With safe keys an empty report means that nothing visible changed, and the other way round. |
| `ContentDiff.DottedKeyConfuses` | upgrade/resources/scripts/upgrade-providers.py:304-315 | Every key with a dot between two names flattens as the path through them, whatever its value and wherever it stands. |
| `ContentDiff.IndexedKeyConfuses` | upgrade/resources/scripts/upgrade-providers.py:304-315 | Every key that ends in an index flattens as the next element of a list of scalars. |
| `ContentDiff.EmptyMappingInvisible` | upgrade/resources/scripts/upgrade-providers.py:304-315 | An empty mapping leaves no path, so its loss is not reported. |
| `ContentDiff.TrueIsOne` | upgrade/resources/scripts/upgrade-providers.py:318-336 | A field that turns from true to 1 is reported as unchanged. |
| `CapsulePatch.PutLaws` | upgrade/resources/scripts/upgrade-providers.py:440-486 | Getting, putting and putting again along a JSON pointer (RFC 6902, sections 4.1 and 4.2, on RFC 6901 pointers). |
| `CapsulePatch.PutFrame` | upgrade/resources/scripts/upgrade-providers.py:440-486 | A put leaves what diverging pointers see alone. |
| `CapsulePatch.ApplyBelow` | upgrade/resources/scripts/upgrade-providers.py:466-486 | An operation below a pointer acts on what the pointer leads to and leaves the rest of the document alone. |
| `CapsulePatch.NamespaceWebhookIndexes` | upgrade/resources/scripts/upgrade-providers.py:440-441 | The indexes of exactly the webhooks with a namespaces rule, in order. |
| `CapsulePatch.BuildPatches` | upgrade/resources/scripts/upgrade-providers.py:466-486 | The loop builds the exclusion patch and the restore patch of one target. |
| `CapsulePatch.ExclusionApplies` | upgrade/resources/scripts/upgrade-providers.py:466-486 | The exclusion patch is accepted and changes exactly the selectors of the namespace webhooks. |
| `CapsulePatch.BackOpRestores` | upgrade/resources/scripts/upgrade-providers.py:466-486 | The recorded operation turns one excluded webhook back. |
| `CapsulePatch.UndoRestores` | upgrade/resources/scripts/upgrade-providers.py:466-486 | The recorded patch undoes the exclusion, for every webhook list, in whatever document it was made. |
| `CapsulePatch.UndoIsExactIff` | upgrade/resources/scripts/upgrade-providers.py:466-486 | The document is the very same again if and only if no namespace webhook had an empty selector. |
| `CapsulePlan.ItemRestores` | upgrade/resources/scripts/upgrade-providers.py:526-532 | An item of the restore plan is accepted on its excluded target and restores it. |
| `CapsulePlan.ItemTwice` | upgrade/resources/scripts/upgrade-providers.py:526-532 | Running an item a second time is rejected if and only if one of its operations removes a selector; otherwise it changes nothing. |
| `CapsulePlan.PlanStep` | upgrade/resources/scripts/upgrade-providers.py:526-532 | A prefix of the plan that has been run restores exactly its targets. |
| `CapsulePlan.PlanStepAgain` | upgrade/resources/scripts/upgrade-providers.py:526-532 | After any interruption, an item that was run before is accepted again only if it changes nothing. |
| `CapsulePlan.PlanEnds` | upgrade/resources/scripts/upgrade-providers.py:526-532 | Nothing run: everything that was seen is excluded.  Everything run: all of it is restored. |
| `CapsulePlan.PlanLength` | upgrade/resources/scripts/upgrade-providers.py:444-486 | The plan has one item for every target that was patched. |
| `CapsulePlan.ItemNumber` | upgrade/resources/scripts/upgrade-providers.py:444-486 | The number of an item is the number of targets patched ahead of its own. |
| `CapsulePlan.NothingPlanned` | upgrade/resources/scripts/upgrade-providers.py:444-486 | An empty plan means that nothing was excluded. |
| `UpgradeRun.Run.Execute` | upgrade/resources/scripts/upgrade-providers.py:907-971 | The whole guarded run, for every fate of its requests.  The egress policies at the end are `EgressEnd`, a function of where the run starts, where it raises and which requests fail, and are as before if and only if `EgressKept`; without a failing look-up, and if neither the deletes nor the recovery meet a failure, they are as before after every exception outside kubeadm_egress_allow().  After a normal end Capsule is as before and both webhooks exist.  After an exception with a quiet recovery, the recovery fails if and only if it is stuck on an interrupted restore, and otherwise comes to `RecoveredFrom`; Capsule is as before if and only if no exclusion was cut short, everything is if and only if there is no gap.  If nothing fails it ends normally; milestones are never taken back. |
| `UpgradeRun.OneFailure` | upgrade/resources/scripts/upgrade-providers.py:907-971 | If at most one request fails, wherever it is: after every exception outside the exclusion, kubeadm_egress_allow() and the deletion of the webhooks, a recovery that is not stuck puts everything back as before. |
| `UpgradeRun.Run.Attempt` | upgrade/resources/scripts/upgrade-providers.py:911-955 | The try block goes through the stages of the mirror, in each of which plan, flags and cluster are known exactly; an exception leaves what `LeftBy` says of its helper and falls where `RaisedWithin` says; a failing exclusion patch is where the run breaks off. |
| `UpgradeRun.Run.Recover` | upgrade/resources/scripts/upgrade-providers.py:956-971 | From any exception, whatever fails: the policies are `EgressEnd`.  With quiet requests the recovery itself fails if and only if the interrupted restore would remove a selector twice, and otherwise restores what `RecoveredFrom` says: Capsule, the recorded policies, the webhooks and the controllers. |
| `UpgradeState.RecoveryIsExact` | upgrade/resources/scripts/upgrade-providers.py:956-971 | After a quiet recovery everything is as before if and only if there is no gap: no exclusion cut short after a patch, no policy mistaken or left, no deletion of webhooks cut short. |
| `UpgradeState.CapsuleRecovered` | upgrade/resources/scripts/upgrade-providers.py:444-532 | Capsule is as before if and only if the exception was not raised between two exclusion patches. |
| `UpgradeState.EgressKeptIff` | upgrade/resources/scripts/upgrade-providers.py:567-582 | Whatever fails and wherever the run ends: the policies are as before if and only if the failing look-ups and deletes match, or, where nothing was recorded, nothing was created. |
| `UpgradeState.CleanRun` | upgrade/resources/scripts/upgrade-providers.py:567-582 | No failing look-up, no exception in kubeadm_egress_allow(), quiet deletes and a quiet recovery are enough. |
| `UpgradeState.EgressUnderRecovery` | upgrade/resources/scripts/upgrade-providers.py:956-971 | The recovery deletes exactly what is recorded when it comes to the policies, and it comes to them if and only if it restores Capsule. |
| `UpgradeState.WebhooksKeptIff` | upgrade/resources/scripts/upgrade-providers.py:691-717 | The webhooks are as before if and only if no deletion was cut short behind one that had been there, and none was created that had not. |
| `UpgradeState.RejectedIff` | upgrade/resources/scripts/upgrade-providers.py:526-532 | Running the plan again is rejected if and only if a target without a selector is among those whose items had been run, counted in targets that were seen. |
| `UpgradeState.QuietAfterwards` | upgrade/resources/scripts/upgrade-providers.py:907-971 | If at most one request fails and the run raises, the recovery meets no failure, and none of the look-ups and deletes behind it does. |
| `UpgradeState.QuietRun` | upgrade/resources/scripts/upgrade-providers.py:907-971 | A run in which nothing fails does not raise, and keeps the policies. |
| `UpgradeState.ExclusionShows` | upgrade/resources/scripts/upgrade-providers.py:444-486 | An exclusion that was interrupted halfway is visible: Capsule is neither as it was nor restored. |
| `UpgradeRun.Run.LookUpTargets` | upgrade/resources/scripts/upgrade-providers.py:448-460 | A failing look-up does not raise: which targets are seen, from the numbers of the failing requests. |
| `UpgradeRun.Run.ExcludeNamespaces` | upgrade/resources/scripts/upgrade-providers.py:444-486 | On return the plan restores exactly the targets that were seen; on an exception some prefix of them is excluded, nothing is recorded, and the failing request is the one of the next patch. |
| `UpgradeRun.HalfAnExclusion` | upgrade/resources/scripts/upgrade-providers.py:444-486 | A run in which only the second patch fails ends with the first target excluded, although the recovery reports no error. |
| `UpgradeRun.Run.RestoreTheCapsule` | upgrade/resources/scripts/upgrade-providers.py:526-532 | Run from the start after `m` items had been run: where it stops, and what is restored then. |
| `UpgradeRun.Run.AllowEgress` | upgrade/resources/scripts/upgrade-providers.py:567-577 | From the numbers of the failing requests: in which namespaces the policy is applied and recorded, which request raises, and how many there are. |
| `KubeadmEgress.RecordedIff` | upgrade/resources/scripts/upgrade-providers.py:567-577 | A namespace is recorded if and only if it had no policy or its own look-up failed. |
| `UpgradeRun.Run.RemoveEgress` | upgrade/resources/scripts/upgrade-providers.py:580-582 | Deletes what was recorded, one request each; a policy stays exactly if its own delete fails, unnoticed. |
| `KubeadmEgress.ClosedIff` | upgrade/resources/scripts/upgrade-providers.py:567-582 | After the deletes the policies are as before if and only if every foreign policy that was recorded has a failing delete and every own one a delete that succeeds. |
| `KubeadmEgress.OpenIff` | upgrade/resources/scripts/upgrade-providers.py:567-577 | Without the deletes they are as before if and only if all namespaces come so far had one. |
| `KubeadmEgress.WithoutFailures` | upgrade/resources/scripts/upgrade-providers.py:567-582 | That is so when no look-up and no delete fails. |
| `UpgradeRun.ForeignPolicyDeleted` | upgrade/resources/scripts/upgrade-providers.py:567-582 | A run in which only the look-up of somebody else's policy fails ends normally and has deleted that policy. |
| `UpgradeRun.Run.DeleteTheWebhooks` | upgrade/resources/scripts/upgrade-providers.py:691-702 | On return both webhooks are gone and the backup exists; on an exception a prefix of them is gone. |
| `UpgradeRun.Run.RestoreTheWebhooks` | upgrade/resources/scripts/upgrade-providers.py:705-717 | On return with a backup both webhooks exist; an exception has at most created some. |
| `UpgradeRun.Run.Unwind` | upgrade/resources/scripts/upgrade-providers.py:939-946 | On the way to a normal end Capsule is restored and the recorded policies are deleted, with the books empty; an exception leaves what `LeftBy` says. |
| `UpgradeRun.Run.ChangeConfig` | upgrade/resources/scripts/upgrade-providers.py:948-952 | The stretch in which the webhooks are gone keeps the flag in step with them. |
| `Orphans.Tracker.Update` | upgrade/resources/scripts/upgrade-provisioner.py:2500-2510 | In place: new candidates are entered with the present time, the others forgotten. |
| `Orphans.ConfirmedOrphans` | upgrade/resources/scripts/upgrade-provisioner.py:2500-2511 | Exactly the candidates that have been seen for the whole window, each as often as it is listed, oldest first, and those first seen together in the order they were listed. |
| `Orphans.SortedOneWay` | upgrade/resources/scripts/upgrade-provisioner.py:2511 | Ascending order and stability leave only one result. |
| `Orphans.TrackedIsStreak` | upgrade/resources/scripts/upgrade-provisioner.py:2500-2511 | After any run of polls the table holds exactly the last candidates, each with the start of its unbroken streak. |
| `Orphans.OldestComesFirst` | upgrade/resources/scripts/upgrade-provisioner.py:2511 | The head of the sorted list is the first listed of the oldest. |
| `Orphans.OldestFirstKeeps` | upgrade/resources/scripts/upgrade-provisioner.py:2511 | Sorting loses nobody and invents nobody. |
| `Orphans.Cleaner.CleanUp` | upgrade/resources/scripts/upgrade-provisioner.py:2513-2610 | At most one member and one Node per call, chosen by the two tables. |
| `Orphans.TablesAreTracked` | upgrade/resources/scripts/upgrade-provisioner.py:2513-2610 | Over any run of calls both tables are the tracked tables of the evaluations that took place. |
| `Orphans.MemberRemovalIsSafe` | upgrade/resources/scripts/upgrade-provisioner.py:2497-2577 | A removed member bears no live Node's name, was a candidate in every evaluation for the whole window, is the longest such, and leaves two members. |
| `Orphans.ConfirmedMemberIsRemoved` | upgrade/resources/scripts/upgrade-provisioner.py:2561-2577 | Whenever there is such a member beside two others, one is removed. |
| `Orphans.NodeRemovalIsSafe` | upgrade/resources/scripts/upgrade-provisioner.py:2579-2610 | The same for Nodes: not Ready, no Machine's Node, confirmed, and one Node stays. |
| `Orphans.QuorumKept` | upgrade/resources/scripts/upgrade-provisioner.py:2561-2577 | Removing a member without a live Node keeps a quorum of live members. |
| `Stepping.ListSteps` | upgrade/resources/scripts/upgrade-provisioner.py:2073-2078 | The loop lists the minors in order and ends. |
| `Stepping.StepsEndIff` | upgrade/resources/scripts/upgrade-provisioner.py:2073-2078 | It ends if and only if the majors agree. |
| `Stepping.CheckedKeyIsUsedKey` | upgrade/resources/scripts/upgrade-provisioner.py:2109-2145 | The key that the up-front check derives from a version string is the key the loop looks up. |
| `Stepping.Upgrade.Missing` | upgrade/resources/scripts/upgrade-provisioner.py:2109-2111 | Lists exactly the minors without an image. |
| `Stepping.Upgrade.CheckImages` | upgrade/resources/scripts/upgrade-provisioner.py:2083-2111 | Passes if and only if a map is given, all its values are images, and every step has one; each failure has its reason. |
| `Stepping.Upgrade.BumpAzure` | upgrade/resources/scripts/upgrade-provisioner.py:2044-2176 | Patches exactly current+1 .. target in order; the missing-image failure inside the loop is unreachable; control plane and waited-on workers are at most one minor apart throughout; on success all have converged on the target. Says for all fates of the requests around the steps what becomes of the policy and the webhook, and, when the steps themselves go well, that the bump succeeds if and only if none of those requests raises. |
| `Stepping.Upgrade.Guarded` | upgrade/resources/scripts/upgrade-provisioner.py:2134-2176 | The policy stays widened if and only if it was widened and the removal of the webhook raises, the later look-up fails silently, or the narrowing raises; likewise for the webhook, and for which exception comes out. |
| `Stepping.StepsInBetween` | upgrade/resources/scripts/upgrade-provisioner.py:2136-2175 | What the finally block makes of what the preparation left, whatever became of the steps. |
| `Stepping.SilentLookUpLeavesItWidened` | upgrade/resources/scripts/upgrade-provisioner.py:896-902 | A run that reports success and leaves the policy widened: only the later look-up fails. |
| `Stepping.RefusedRemovalLeavesItWidened` | upgrade/resources/scripts/upgrade-provisioner.py:2136-2138 | A run in which only the removal of the webhook fails: the policy stays widened although no step was taken. |
| `Stepping.RefusedNarrowingLosesTheHook` | upgrade/resources/scripts/upgrade-provisioner.py:2173-2175 | A run in which only the narrowing fails: the webhook is not put back either. |
| `Stepping.Upgrade.StepThrough` | upgrade/resources/scripts/upgrade-provisioner.py:2139-2172 | The loop over the minors. |
| `Stepping.Upgrade.OneStep` | upgrade/resources/scripts/upgrade-provisioner.py:2158-2169 | One step ends with everything converged on it, or is not taken further. |
| `Stepping.Upgrade.Finally` | upgrade/resources/scripts/upgrade-provisioner.py:2173-2175 | Both restores, the second only if the first does not raise. |
| `Stepping.Cluster.OpenPolicy` | upgrade/resources/scripts/upgrade-provisioner.py:899-928 | A silent look-up, then a backup and a patch that raise. |
| `Stepping.Cluster.ClosePolicy` | upgrade/resources/scripts/upgrade-provisioner.py:899-960 | A silent look-up, then a listing and a patch that raise; the policy is rendered afresh, not put back. |
| `Stepping.Cluster.TakeHook` | upgrade/resources/scripts/upgrade-provisioner.py:972-997 | The webhook is saved before the request that takes it out. |
| `Stepping.Cluster.ReturnHook` | upgrade/resources/scripts/upgrade-provisioner.py:972-1018 | A saved webhook that is missing is put back, unless the look-up fails silently. |
| `Stepping.Upgrade.BumpGcp` | upgrade/resources/scripts/upgrade-provisioner.py:2044-2200 | The same promise for GCP, with the later of the two definitions of the node pool wait. |
| `Stepping.Upgrade.StepThroughPools` | upgrade/resources/scripts/upgrade-provisioner.py:2186-2200 | Its loop. |
| `ProgressWait.WaitRollout` | upgrade/resources/scripts/upgrade-provisioner.py:2337-2377 | Ends for every clock and environment within (restarts + 1) windows, with at most one restart per node count; gives up only after a full window in which no poll saw more nodes than some poll before it. |
| `ProgressWait.WaitSettled` | upgrade/resources/scripts/upgrade-providers.py:661-672 | Ends within as many windows as there were unsettled CRDs; gives up only after a full window without a new low. |
| `Versions.Parse` | pkg/internal/version/version.go:42-86 | Returns `v` if and only if the grammar says that the string writes `v`, and fails otherwise. |
| `Versions.ReadsOne` | pkg/internal/version/version.go:42-86 | A string writes at most one version. |
| `Versions.SplitsIff` | pkg/internal/version/version.go:37 | The first expression splits a string in exactly the one way of the grammar. |
| `Versions.ExtraIff` | pkg/internal/version/version.go:39 | The second expression takes apart exactly what the grammar allows behind the numbers. |
| `Versions.DottedOfList` | pkg/internal/version/version.go:35-40 | Longest match finds the whole of a dotted list. |
| `Versions.DottedIsList` | pkg/internal/version/version.go:35-40 | What longest match finds is a dotted list. |
| `Versions.ParseComponents` | pkg/internal/version/version.go:49-67 | The loop over the fields returns the one list of components that the rules allow. |
| `Versions.CheckIdentifiers` | pkg/internal/version/version.go:76-82 | No identifier that fits the integer type has a leading zero. |
| `Versions.String` | pkg/internal/version/version.go:197-219 | The loop writes the normal form. |
| `Versions.SemanticReadsExactly` | pkg/internal/version/version.go:106-113 | ParseSemantic accepts exactly the normal forms of well-formed versions with white space and `v` before and white space without line breaks behind. |
| `Versions.SemanticRoundTrip` | pkg/internal/version/version.go:42-86 | Parsing what was printed gives the same components, pre-release and build metadata. |
| `Versions.GenericRoundTrip` | pkg/internal/version/version.go:42-95 | For ParseGeneric: the same components. |
| `Versions.ShowIsNormal` | pkg/internal/version/version.go:194-219 | Two versions of one kind that print alike are the same. |
| `Versions.TrailingSpaceIgnoredIff` | pkg/internal/version/version.go:88-93 | Trailing white space is ignored if and only if it holds no line break, although all of it is promised. |
| `VersionOrder.OnlyZeros` | pkg/internal/version/version.go:291-299 | Whether all components are zero. |
| `VersionOrder.CompareNumbers` | pkg/internal/version/version.go:223-242 | Lexicographic order of the components padded with zeros. |
| `VersionOrder.NumbersTotal` | pkg/internal/version/version.go:223-242 | Exactly one of smaller, same and greater. |
| `VersionOrder.NumbersTransitive` | pkg/internal/version/version.go:223-242 | Padded order is transitive, and compatible with sameness. |
| `VersionOrder.CompareLists` | pkg/internal/version/version.go:257-289 | The loop over the identifiers: the first that differ decide, then the length. |
| `VersionOrder.Compare` | pkg/internal/version/version.go:221-289 | -1, 0 or 1 exactly as the order of versions says. |
| `VersionOrder.CompareIsAntisymmetric` | pkg/internal/version/version.go:221-289 | compareInternal(a, b) == -compareInternal(b, a), for all versions. |
| `VersionOrder.CompareText` | pkg/internal/version/version.go:316-325 | Compare() with a string: an error exactly when it does not parse. |
| `VersionPrecedence.SettledIff` | pkg/internal/version/version.go:257-280 | An identifier fits into one order with all numbers if and only if it is settled; otherwise two numbers and it go round in a circle. |
| `VersionPrecedence.LowerTransitive` | pkg/internal/version/version.go:257-280 | Settled identifiers are in one order. |
| `VersionPrecedence.LevelIsSame` | pkg/internal/version/version.go:257-280 | Identifiers of parsed versions never tie. |
| `VersionPrecedence.OrderlyTransitive` | pkg/internal/version/version.go:221-289 | On semantic versions with settled identifiers the order is transitive. |
| `VersionPrecedence.OrderlyTotal` | pkg/internal/version/version.go:221-289 | And total up to build metadata. |
| `VersionPrecedence.GenericTransitive` | pkg/internal/version/version.go:221-246 | Generic versions are a total preorder. |
| `VersionPrecedence.UnsettledVersions` | pkg/internal/version/version.go:221-289 | Every identifier that is not settled puts three semantic versions into a circle. |
| `VersionPrecedence.TwoTenTenA` | pkg/internal/version/version.go:257-280 | 1.0.0-2 < 1.0.0-10 < 1.0.0-10a < 1.0.0-2. |
| `VersionPrecedence.MixedKindsAreNotOrdered` | pkg/internal/version/version.go:236-246 | Semantic and generic versions together are not ordered. |
| `VersionPrecedence.RankedIff` | pkg/internal/version/version.go:257-280 | An identifier stands to all ranked identifiers as section 11.4 of Semantic Versioning 2.0.0 wants it if and only if it is ranked itself. |
| `VersionPrecedence.PrecedenceIsStandard` | pkg/internal/version/version.go:221-289 | On versions with ranked identifiers only, the order is the precedence of section 11. |
| `VersionPrecedence.LetterFirstIsRanked` | pkg/internal/version/version.go:257-280 | Identifiers that start with a letter are ranked. |
| `YamlStream.DecisionIsFinal` | pkg/internal/patch/resource.go:121-148 | Once the splitter advances on some data, it decides the same on every extension of it. |
| `YamlStream.SplitDocuments` | pkg/internal/patch/resource.go:104-115 | However the reader cuts the stream, the documents depend on the whole stream alone. |
| `YamlStream.DocumentsAreGrouped` | pkg/internal/patch/resource.go:121-148 | The documents are those that a grouping of the lines at rules gives. |
| `YamlStream.LastRuleMayLoseDocument` | pkg/internal/patch/resource.go:128-141 | A rule on the last line without a line break keeps the document before it only if it is bare. |
| `YamlStream.WriteDocuments` | pkg/internal/patch/kubeyaml.go:56-75 | The loop joins the documents with rules between them. |
| `YamlStream.RoundTripIff` | pkg/internal/patch/kubeyaml.go:53-76 | Documents that end with a line break, joined and split again, are the same, all but the last without their line break, if and only if none has a rule behind its first line. |
| `ErrorAggregate.NewAggregateOf` | pkg/errors/aggregate_forked.go:48-63 | The aggregate of the errors that are not nil, nil if there is none. |
| `ErrorAggregate.Flatten` | pkg/errors/aggregate_forked.go:67-86 | The recursive loop yields exactly the leaves, in order. |
| `ErrorAggregate.FlattenIsIdempotent` | pkg/errors/aggregate_forked.go:67-86 | Flattening twice is flattening once. |
| `ErrorAggregate.FlattenKeepsText` | pkg/errors/aggregate_forked.go:67-133 | Flattening does not change what is printed. |
| `ErrorAggregate.FlattenKeepsMatches` | pkg/errors/aggregate_forked.go:67-162 | Nor what matches. |
| `ErrorAggregate.ErrorMessage` | pkg/errors/aggregate_forked.go:107-133 | Error(), with its closure and its special case for one error, prints the first occurrences of the messages of the leaves. |
| `ErrorAggregate.Visit` | pkg/errors/aggregate_forked.go:141-162 | visit() with the closure of Error() has collected the messages of the leaves in order. |
| `ErrorAggregate.Collect` | pkg/errors/aggregate_forked.go:117-128 | One call of the closure. |
| `ErrorAggregate.FirstsSpec` | pkg/errors/aggregate_forked.go:115-128 | The collected messages are distinct, are all messages, and stand in the order of their first occurrences. |
| `ErrorAggregate.ShortcutAgrees` | pkg/errors/aggregate_forked.go:112-133 | The shortcut for a single error prints what the general case would. |
| `ErrorAggregate.NothingToPrint` | pkg/errors/aggregate_forked.go:107-133 | Without any leaf the text is empty, or a pair of brackets if several empty aggregates are held. |
| `ErrorAggregate.Is` | pkg/errors/aggregate_forked.go:135-162 | Matches exactly what some error in the tree matches. |
| `ErrorAggregate.NewAggregate` | pkg/errors/aggregate.go:22-30 | nil, the one leaf, or the flat aggregate of the leaves, with a stack. |
| `ErrorAggregate.MadeKeepsMeaning` | pkg/errors/aggregate.go:22-30 | NewAggregate prints what the given errors would together and matches what any of them matches. |
| `ErrorAggregate.MadeIsNilIff` | pkg/errors/aggregate.go:22-30 | It is nil if and only if all given errors are, and holds no empty aggregate. |
| `ErrorAggregate.Errors` | pkg/errors/aggregate.go:33-49 | The errors of the innermost aggregate along the causes. |
| `ErrorAggregate.ErrorsOfMade` | pkg/errors/aggregate.go:22-49 | Errors() of what NewAggregate() made are the leaves. |
| `ConcurrentCollect.InvStep` | pkg/errors/concurrent.go:25-70 | Every step of every goroutine keeps the invariant of the channel, the wait group and the caller. |
| `ConcurrentCollect.RunInv` | pkg/errors/concurrent.go:25-70 | So it holds in every state of every run. |
| `ConcurrentCollect.ChannelCount` | pkg/errors/concurrent.go:25-70 | Waiting and received results together are the senders, never more than functions. |
| `ConcurrentCollect.SendsNeverBlock` | pkg/errors/concurrent.go:25-58 | No goroutine is kept at its send, also after an early return, and none sends on a closed channel. |
| `ConcurrentCollect.Progress` | pkg/errors/concurrent.go:25-70 | Some step is enabled until the caller has returned and every goroutine has ended. |
| `ConcurrentCollect.RunsAreShort` | pkg/errors/concurrent.go:25-70 | However they are scheduled, n functions take at most 7n + 4 steps. |
| `ConcurrentCollect.UntilErrorResult` | pkg/errors/concurrent.go:25-39 | nil if and only if every function returns nil, otherwise the error of one of them. |
| `ConcurrentCollect.CollectedPermuted` | pkg/errors/concurrent.go:58-64 | Whatever the order of arrival, the same errors are collected. |
| `ConcurrentCollect.AggregateResult` | pkg/errors/concurrent.go:42-70 | Exactly the multiset of the errors returned is summarised, after every goroutine has ended. |
| `ConcurrentCollect.SummaryIsNilIff` | pkg/errors/concurrent.go:65-70 | The summary is nil if and only if there are none. |
| `ConcurrentCollect.SummaryMatches` | pkg/errors/concurrent.go:65-70 | It matches what any of them matches. |
| `Routes.Host.SyncOne` | images/kindnetd/cmd/kindnetd/routes.go:36-65 | One destination: all wrong routes deleted, the wanted one added if missing; on a failure nothing else is touched. |
| `Routes.Host.SyncRoute` | images/kindnetd/cmd/kindnetd/routes.go:27-68 | The loop over the networks of a node: succeeds if and only if all parse and no request fails, and then the table is the specified one. |
| `Routes.Host.ReconcileNode` | images/kindnetd/cmd/kindnetd/main.go:219-274 | One node: the wants of both families in order, nothing for the node itself. |
| `Routes.Host.Reconcile` | images/kindnetd/cmd/kindnetd/main.go:276-285 | All nodes in order. |
| `Routes.Host.ReconcileWithRetries` | images/kindnetd/cmd/kindnetd/main.go:198-209 | After any failures, a pass that succeeds satisfies every want; destinations nobody wants are as before in any case. |
| `Routes.ConvergesIff` | images/kindnetd/cmd/kindnetd/main.go:217-285 | From any table a pass satisfies every want if and only if no destination is wanted by two gateways. |
| `Routes.LastWins` | images/kindnetd/cmd/kindnetd/main.go:217-285 | Later nodes keep what earlier nodes got; for a shared destination the last want holds. |
| `Routes.SecondPassIsIdle` | images/kindnetd/cmd/kindnetd/main.go:217-285 | Under the same condition a second pass changes nothing. |
| `Routes.OthersUnchanged` | images/kindnetd/cmd/kindnetd/routes.go:27-68 | Routes to other destinations are left alone. |
| `Routes.NoPodCIDRIsIgnoredIff` | images/kindnetd/cmd/kindnetd/main.go:239-249 | A node without a pod network is passed over if and only if the cluster is dual-stack, it is this node, or it has no address of version 4. |
| `Routes.CollectIPs` | images/kindnetd/cmd/kindnetd/main.go:288-297 | The internal addresses. |
| `Routes.SplitCIDRs` | images/kindnetd/cmd/kindnetd/main.go:301-311 | The networks by family, in order. |
| `Routes.SplitKeeps` | images/kindnetd/cmd/kindnetd/main.go:301-311 | Nothing is lost or invented. |
| `Routes.Gateways` | images/kindnetd/cmd/kindnetd/main.go:253-261 | The last address of each family in string order. |
| `PruneYaml.RemoveKey` | pkg/commons/utils.go:233-253 | In place, with shrinking content under recursion: the nodes stay and their trees are pruned. |
| `PruneYaml.DropKeys` | pkg/commons/utils.go:237-244 | The shrinking loop leaves exactly the other pairs, in order. |
| `PruneYaml.PrunedIsKeyFree` | pkg/commons/utils.go:233-253 | No mapping reached through mappings and sequences has the key. |
| `PruneYaml.UnchangedIff` | pkg/commons/utils.go:233-253 | A tree is left as it is if and only if it is free of the key. |
| `PruneYaml.PruneIsIdempotent` | pkg/commons/utils.go:233-253 | Pruning twice is pruning once. |
| `PruneYaml.PathsKept` | pkg/commons/utils.go:233-253 | Every way down that does not use the key leads to what it led to before, pruned; one that uses it leads nowhere. |
| `PruneYaml.DropPairs` | pkg/commons/utils.go:237-244 | Pairs go whole: the length keeps its parity. |
| `NodeNames.Namer.Name` | pkg/cluster/internal/providers/common/namer.go:25-37 | The nth call for a role returns the nth name of the role. |
| `NodeNames.HasImplicitLoadBalancer` | pkg/internal/apis/config/cluster_util.go:26-34 | True if and only if there is more than one control plane. |
| `NodeNames.PlanCreation` | pkg/cluster/internal/providers/docker/provision.go:38-128 | Names and roles of all containers, the load balancer first; an error exactly for an unknown role. |
| `NodeNames.NameIsInjective` | pkg/cluster/internal/providers/common/namer.go:25-37 | A name tells role and number. |
| `NodeNames.PlannedNamesDiffer` | pkg/cluster/internal/providers/docker/provision.go:38-50 | All names of a plan are different, that of the load balancer included. |
| `NodeNames.SelectNodesByRole` | pkg/cluster/nodeutils/roles.go:31-43 | The nodes of a role in order, an error if a role cannot be read. |
| `NodeNames.ControlPlaneNodes` | pkg/cluster/nodeutils/roles.go:106-121 | The control planes, sorted by name. |
| `NodeNames.BootstrapControlPlaneNode` | pkg/cluster/nodeutils/roles.go:125-138 | The control plane of which no other comes before it; an error exactly if there is none. |
| `NodeNames.ExternalLoadBalancerNode` | pkg/cluster/nodeutils/roles.go:63-83 | None, the one, or an error for more. |
| `NodeNames.APIServerEndpointNode` | pkg/cluster/nodeutils/roles.go:88-102 | Computes the endpoint. |
| `NodeNames.EndpointOfCluster` | pkg/cluster/nodeutils/roles.go:85-102 | For every cluster with a control plane and every order of listing there is an endpoint: the load balancer if and only if there is more than one control plane. |
| `NodeNames.BootstrapIsFirstDeclared` | pkg/cluster/nodeutils/roles.go:103-138 | Under any order of listing the bootstrap node is the first name of the role. |
| `NodeNames.FirstDeclaredHasFirstName` | pkg/cluster/internal/providers/docker/provision.go:42-46 | Which is the name of the control plane that was declared first. |

## Left out

- UpgradeRun.Run.Execute: after a recovery of which a request fails it says what the policies are, but not Capsule, the webhooks (bounded by UpgradeRun.Run.RestoreTheWebhooks) and the controllers; a request that fails has no effect.
- UpgradeRun.Run.LookUpTargets: the configuration names both halves of Capsule's webhooks; with only the validating half the code raises KeyError when it indexes the other, which is not modelled.
- UpgradeState.RecoveryIsExact: asks that no webhook carried the exclusion before the run; one that did would hide a partial exclusion.
- Stepping.Upgrade.BumpAzure: takes an uninterrupted run that starts converged, workers that follow the control plane and are never ahead of it, and a target of the same major; for a newer major listing the steps never ends (Stepping.StepsEndIff).
- Stepping.Upgrade.BumpGcp: the same; the resolution of a GKE version is one request.
- ContentDiff.Over: keys are not empty; below an empty prefix the code writes an empty key as no key at all.
- Stepping.Cluster: a refused request changes nothing, nobody else changes the policy or the webhook meanwhile, and the single patch of the AWS bump is left out.
- Storage migration: the API server is linear and at once consistent; one that still encodes in an older version for a while after the CRD was edited is not modelled.
- The upgrade run: dry runs, the contents of the backup, and what clusterctl, helm and the controllers do beyond the temporary changes.
- Capsule: two webhook lists inside one configuration object are treated as views of their own, which CapsulePatch.PutFrame justifies.
- Orphan clean-up: the shape of the cluster's answers; polls that fail before the lists are there change nothing and are no evaluations.
- Waits: what makes a poll count as converged is a parameter.
- Versions: error texts; the With... methods, accessors and Must... functions, which are one line each; characters stand for bytes.
- YAML: the limit of bufio.Scanner on the length of a token; parsing and patching of the documents.
- Errors: what errors.Is does inside foreign error types; a leaf has a set of targets it matches. StackTrace.
- Concurrent collection: functions that panic; one that never returns is a goroutine that takes no further step.
- Routes: Go's parsers are parameters, writing the CNI configuration is one request, and a listing of the kernel fits the family of its destination.
- Key removal: decoded trees share nothing; aliases are not followed, as in the code.
- Node planning: mounts, ports and container arguments. The library's sort by name is an insertion sort.
- The recovery of the critical section of upgrade-provisioner.py: for failures before the webhook backup exists it stops at its first step.
- masq.go, sortNetworkInspectEntries, EnsureSecretsFile, sets, defaulting, validation, conversion: easy members, or no ordering or round trip to prove.
- Vault, registries, cloud SDKs, templates, cobra commands, JSON merge patch and the codecs: libraries and plumbing.
