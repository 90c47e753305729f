# Lifecycle engine of the core manager: a verified model

A Dafny model of how `nyanpasu-core-manager` launches, replaces and retires core
processes, how it turns a configuration change into the cheapest safe action, how
it watches an instance, how it archives a core's output, and how
`nyanpasu-service-runtime` reports all of that to connected clients. `dafny verify
dfyconfig.toml` checks all of it.

The five parts:

- **The epoch protocol** (`Epochs.dfy`, `Manager.dfy`). A class with the control
  state of the manager and a map for its runtime directory. Every answer of the
  environment (spawn and readiness, stop, reap, each file operation, what the core
  reports) is an input, one `Env` per operation named by the part each answer plays;
  the contracts hold for all of them and say which end each combination leads to. A
  ghost history of events is held to an automaton, `Epochs.Safe`, and the whole-run
  results are read off it.
- **The change compiler** (`KeyOrder.dfy`, `Yaml.dfy`, `Canonical.dfy`, `Diff.dfy`,
  `Mihomo.dfy`, `Bootstrap.dfy`). Canonical trees, the structural diff, the Noop / Patch /
  Reload / Switch verdict, the patch it builds with deep merge as the meaning of a
  patch, the projection that verifies it, and zeroing and restoring listeners for
  an overlapping bootstrap.
- **The instance monitor and health tracker** (`Health.dfy`, `RunLog.dfy`,
  `Monitor.dfy`). Every turn of the monitor's loop appends exactly its events to a
  ghost log, and the log is held to an automaton, `RunLog.Safe`.
- **The log pipeline** (`Utf8.dfy`, `Ansi.dfy`, `LogRecords.dfy`,
  `PremiumClock.dfy`, `LogSink.dfy`).
- **The status fan-out** (`Fanout.dfy`), as a state machine in which every read,
  send and receive is a step of its own.

Where the code does less than its comments or one might expect, the model follows
the code, an input shows it, and the exact condition is proved:

- A Patch verdict reaches the desired document if and only if no changed field of
  the typed patch becomes null; the typed conversion drops nulls
  (`Bootstrap.NullingIsNotPatched`, `Mihomo.PatchReachesDesired`).
- If every change becomes null the patch is empty, and only an empty core document
  would pass its projection (`Mihomo.DesiredPassesProjection`).
- A `dns.listen` key that is present but blank ends the overlap check early; the
  gate is right if and only if such a key hides no open inbound
  (`Bootstrap.BlankDnsListenHidesListeners`, `Bootstrap.OverlapGate`).
- A client connected before the bridge's first read can stay stale, because that
  read marks the status seen and sends nothing; at rest it is current if and only if
  a status was sent since, or nothing changed between its snapshot and that read
  (`Fanout.EarlyClientCanBeStale`, `Fanout.DrainedClientExact`).
- A log root cut short of its cap leaves up to three free bytes, so a continuation
  whose first character fits there grows a hole in the text, which the comment on
  appending rules out; exactly then (`LogRecords.CutRootGrowsAHole`,
  `LogRecords.AppendAfterRoot`, `LogRecords.PrefixExact`).
- Premium dates are right exactly if each line falls on the date of the one before
  it or follows within less than half a day (`PremiumClock.HalfADayIsTooMuch`,
  `PremiumClock.StampsExact`).
- With `max_bytes` 0 every record rotates first, so a closed file holds at most
  one record and is not below `max_bytes` plus that record; `LogSink.Closed` states
  both cases.

## Model

| member | source | states |
|---|---|---|
| `Epochs.SafePrefix` | crates/nyanpasu-core-manager/src/manager/quarantine.rs:8-85 | every prefix of a safe event sequence is safe, and its next event is allowed where it happens |
| `Epochs.AtMostTwoLive` | crates/nyanpasu-core-manager/src/manager/switching.rs:201-270 | in a safe run at most two processes may be alive, and two only after a newer epoch was spawned beside the live current one |
| `Epochs.EveryStepSafe` | crates/nyanpasu-core-manager/src/manager/switching.rs:45-104 | the same at every intermediate step; no spawn while quarantine is non-empty; nothing is cleaned while it may be alive |
| `Epochs.ReleasedOnlyAfterProof` | crates/nyanpasu-core-manager/src/manager/quarantine.rs:19-85 | an epoch leaves quarantine only after its death was proven and then its artifacts cleaned, with no respawn in between |
| `Epochs.RevisionsNeverGoBack` | crates/nyanpasu-core-manager/src/manager/apply.rs:286-603 | installed (epoch, generation) pairs never decrease; an in-place advance strictly increases them |
| `Epochs.OneSuccessor` | crates/nyanpasu-core-manager/src/manager/apply.rs:19-37 | compare-and-swap has no ABA: the revisions successive applies start from strictly increase, so none has two successors |
| `Epochs.OverlapsGrow` | crates/nyanpasu-core-manager/src/manager/switching.rs:162-270 | a stretch of events that leaves the overlap count unchanged spawns nothing beside the live current epoch |
| `Manager.RunAll` | crates/nyanpasu-core-manager/src/manager/mod.rs:319-599 | over every sequence of public operations and every environment answer: the possibly live epochs are the current one and the unproven quarantined ones, disjoint; never more than two at any step; no spawn under quarantine; the stable file is the current document; no revision is the base of two applies |
| `Manager.CoreManager.Perform` | crates/nyanpasu-core-manager/src/manager/mod.rs:319-599 | each public operation keeps the invariant and only extends the history; only a switch or a restart may spawn beside the live current epoch; under quarantine the launching ones leave it unchanged |
| `Manager.CoreManager.ApplyConfig` | crates/nyanpasu-core-manager/src/manager/apply.rs:19-149 | each gate refuses with its own error and changes nothing; otherwise the classified change and the given answers decide the end: unchanged, patched or reloaded exactly if the core's own document passes in time, else restarted; and if the old process stops, the new one fails and is proven dead, and the old document can be restored and respawned, the outcome is RolledBack with the old launch current; every process not proven dead is quarantined; the durability warnings are counted exactly |
| `Manager.CoreManager.Reconcile` | crates/nyanpasu-core-manager/src/manager/apply.rs:57-149 | carrying out a non-noop change ends as the answers say, keeps file and document in step and records one step from the old revision to the new one unless rolled back |
| `Manager.CoreManager.ClassifyChange` | crates/nyanpasu-core-manager/src/manager/apply.rs:44-55 | the classifier never errs on the launch documents, its verdict is the one `Bootstrap.ClassifyExact` characterises, and a no-op means equal effective documents |
| `Manager.CoreManager.ApplyInEpoch` | crates/nyanpasu-core-manager/src/manager/apply.rs:64-149 | without a backup or a committed document nothing changes; otherwise patch, reload, restart or rollback within the epoch as the answers say, and the backup is gone afterwards, so the apply can be tried again |
| `Manager.CoreManager.FinishInEpoch` | crates/nyanpasu-core-manager/src/manager/apply.rs:101-149 | with the new document on disk: reconciled in place exactly if the core's answers confirm it, else restarted, quarantined or rolled back by the answers |
| `Manager.CoreManager.ReconcileInPlace` | crates/nyanpasu-core-manager/src/manager/apply.rs:199-248 | succeeds exactly if the answers come in time, the core is healthy and the reported document passes the projection (or a reload was accepted); then a patch would change nothing in it and every patched leaf is as desired |
| `Manager.CoreManager.PatchAndVerify` | crates/nyanpasu-core-manager/src/manager/apply.rs:250-284 | whatever became of the request, success is exactly: in time, healthy, and the reported document passed the projection; then the patch would change nothing in it and every patched leaf is as intended |
| `Manager.CoreManager.AdvanceInPlace` | crates/nyanpasu-core-manager/src/manager/apply.rs:106-138 | in-place success keeps the process and advances the revision by one generation |
| `Manager.CoreManager.RestartWithCompensation` | crates/nyanpasu-core-manager/src/manager/apply.rs:286-448 | an old process that does not stop, or a new one that neither gets ready nor dies, is quarantined; a ready one runs the desired document; and if the new one failed and is proven dead the old launch is current again exactly if its backup is restored and its process gets ready |
| `Manager.CoreManager.RestartStopped` | crates/nyanpasu-core-manager/src/manager/apply.rs:322-447 | the same with the old process already stopped, by the fate of the new one |
| `Manager.CoreManager.RollBack` | crates/nyanpasu-core-manager/src/manager/apply.rs:366-446 | the old launch and its file are back exactly if the backup is restored and the old process gets ready; else ApplyRollbackFailed, or a quarantined epoch |
| `Manager.CoreManager.Reinstate` | crates/nyanpasu-core-manager/src/manager/apply.rs:391-445 | respawning the old epoch reinstalls its revision if it gets ready, quarantines it if it cannot be proven dead, and fails otherwise |
| `Manager.CoreManager.SwitchWithCompensation` | crates/nyanpasu-core-manager/src/manager/apply.rs:450-603 | takes exactly one new epoch; a failed preparation keeps the old launch, a ready process installs the new epoch at generation 1, an unproven one is quarantined, and one proven dead leads back to the old launch exactly if that gets ready again; a dropped epoch leaves no file if its cleanup succeeds |
| `Manager.CoreManager.ReplaceEpoch` | crates/nyanpasu-core-manager/src/manager/apply.rs:501-601 | by the fate of the new process: installed with the old epoch cleaned, quarantined, or cleaned and the old epoch reinstated |
| `Manager.WithDurability` | crates/nyanpasu-core-manager/src/manager/apply.rs:606-630 | the durability wrapper keeps success, failure, the outcome and the fault underneath, and counts one more warning exactly if there is one |
| `Manager.WithSwitchDurability` | crates/nyanpasu-core-manager/src/manager/switching.rs:548-575 | the same for switches |
| `Manager.CoreManager.Start` | crates/nyanpasu-core-manager/src/manager/mod.rs:319-345 | refused under quarantine and while a core runs, changing nothing; otherwise succeeds exactly if a leftover is stopped and cleaned, the source loads, checks and is committed, and the process gets ready: a fresh epoch at generation 1; something is quarantined exactly if it answers StopUnconfirmed |
| `Manager.CoreManager.StartLocked` | crates/nyanpasu-core-manager/src/manager/mod.rs:347-365 | takes one new epoch number whatever happens, and installs it exactly if every step succeeds; a failed one leaves no file if its cleanup succeeds |
| `Manager.CoreManager.StartPrepared` | crates/nyanpasu-core-manager/src/manager/mod.rs:367-436 | by the fate of the process: installed, cleaned up, or quarantined |
| `Manager.CoreManager.Stop` | crates/nyanpasu-core-manager/src/manager/mod.rs:438-507 | its answer by the stop, the cleanup and the terminal state; nothing is current afterwards; the epoch is the one added, unproven quarantine entry, or proven dead with quarantine unchanged |
| `Manager.CoreManager.Shutdown` | crates/nyanpasu-core-manager/src/manager/mod.rs:541-595 | as stop, except that an absent core and a terminal core that was cleaned give success |
| `Manager.CoreManager.NextEpoch` | crates/nyanpasu-core-manager/src/manager/mod.rs:597-599 | a number above every epoch that may live, was installed or has a file |
| `Manager.CoreManager.Switch` | crates/nyanpasu-core-manager/src/manager/switching.rs:52-104 | refused under quarantine, changing nothing; otherwise all of `SwitchedAs`: graceful exactly if the controller is local, the core is Mihomo and the gate allows the overlap, and when each path succeeds, which reason it gives, what stays current and what is quarantined otherwise |
| `Manager.CoreManager.Restart` | crates/nyanpasu-core-manager/src/manager/switching.rs:45-50 | a switch to the last installed spec, also after a stop, with the same promises; without a last spec nothing happens |
| `Manager.CoreManager.SwitchLocked` | crates/nyanpasu-core-manager/src/manager/switching.rs:58-104 | retire and start, hard or graceful, each with its exact condition of success |
| `Manager.CoreManager.SwitchRunning` | crates/nyanpasu-core-manager/src/manager/switching.rs:87-104 | for a running core: overlap if the gate allows it, else a hard switch with the reason |
| `Manager.CoreManager.HardSwitch` | crates/nyanpasu-core-manager/src/manager/switching.rs:106-160 | succeeds exactly if the new epoch is prepared, the old one proven dead and cleaned and the new one ready, and then in exactly this order: vacate, prove dead, clean, spawn, install; a failed preparation keeps the old epoch; something is quarantined exactly if it answers StopUnconfirmed |
| `Manager.CoreManager.GracefulSwitch` | crates/nyanpasu-core-manager/src/manager/switching.rs:162-359 | the one overlap: the old epoch stays current unless the bootstrap gets ready; the new one is installed exactly if the old one stops, the full document is committed, and the core either passes the projection of the restoration patch or is restarted from that document; which processes are quarantined, and when the dropped epoch leaves no file |
| `Manager.CoreManager.Overlap` | crates/nyanpasu-core-manager/src/manager/switching.rs:201-358 | the same from the spawn of the bootstrap on |
| `Manager.CoreManager.StartBootstrap` | crates/nyanpasu-core-manager/src/manager/switching.rs:201-233 | by the fate of the bootstrap: ready beside the old epoch, cleaned, or quarantined; the old epoch stays current |
| `Manager.CoreManager.AbandonOverlap` | crates/nyanpasu-core-manager/src/manager/switching.rs:242-269 | when the old epoch does not stop it is quarantined, and the bootstrap is cleaned if proven dead and quarantined otherwise |
| `Manager.CoreManager.FinishGraceful` | crates/nyanpasu-core-manager/src/manager/switching.rs:272-317 | installed exactly if the full document is committed and the core takes the restoration or is restarted; the file, the hash and the installed document agree; graceful exactly if the reported document passed the projection; durability warnings counted |
| `Manager.CoreManager.RelaunchFull` | crates/nyanpasu-core-manager/src/manager/switching.rs:319-358 | the fallback restarts the same epoch from its committed full document, by the answers to stop, respawn and cleanup |
| `Manager.CoreManager.PrepareGraceful` | crates/nyanpasu-core-manager/src/manager/switching.rs:455-522 | succeeds exactly if the two documents are restorable, check and are committed; the file committed is the zeroed document, the launch the full one with its own hash, and the restoration patch the one between the two |
| `Manager.CoreManager.SpawnReplacement` | crates/nyanpasu-core-manager/src/manager/switching.rs:524-546 | by the fate of the process: nothing alive, or the epoch possibly alive |
| `Manager.CoreManager.RecoverQuarantine` | crates/nyanpasu-core-manager/src/manager/quarantine.rs:18-85 | succeeds exactly when every entry was proven dead and cleaned; exactly the others stay, in order, marked if proven |
| `Manager.CoreManager.RecoverEntry` | crates/nyanpasu-core-manager/src/manager/quarantine.rs:26-67 | an entry leaves exactly if it was proven dead and cleaned; a failed cleanup keeps it, marked proven |
| `Manager.CoreManager.LatchQuarantine` | crates/nyanpasu-core-manager/src/manager/quarantine.rs:8-14 | the epoch becomes one new, unproven entry at the end of the list |
| `Manager.RecordNew` | crates/nyanpasu-core-manager/src/manager/quarantine.rs:107-121 | recording an epoch that is not listed appends one unproven entry and keeps epochs distinct |
| `Manager.RecordListed` | crates/nyanpasu-core-manager/src/manager/quarantine.rs:107-121 | recording an epoch that is listed replaces its reason and nothing else |
| `Manager.SweepOrphans` | crates/nyanpasu-core-manager/src/manager/quarantine.rs:130-141 | succeeds exactly if every process with a record is reaped and every epoch cleaned; then nothing of an earlier epoch is left and the answer is the largest epoch; no recorded epoch's file goes unreaped even on failure |
| `Manager.CoreManager.CleanupEpoch` | crates/nyanpasu-core-manager/src/config/runtime_store.rs:279-305 | success removes every artifact of the epoch; failure may remove part of them; no other epoch's file is touched |
| `Manager.CoreManager.CommitReplace` | crates/nyanpasu-core-manager/src/config/runtime_store.rs:216-244 | replaces exactly if the write succeeds and there is a target; otherwise the file is unchanged |
| `Manager.CoreManager.Restore` | crates/nyanpasu-core-manager/src/config/runtime_store.rs:264-271 | succeeds exactly if the write does, the file is there and so is the backup; then the stable file holds the backup's bytes |
| `Manager.CoreManager.Backup` | crates/nyanpasu-core-manager/src/config/runtime_store.rs:246-262 | succeeds exactly if the write does, the stable file is there and no backup of that generation is; then the backup holds the file's bytes |
| `Manager.CoreManager.StopAndConfirmDead` | crates/nyanpasu-core-manager/src/instance.rs:375-445 | success is proof of death, failure leaves the epoch possibly alive |
| `Diff.ChangesAreParts` | crates/nyanpasu-core-manager/src/config/diff.rs:27-68 | a change is reported at a path exactly when the two documents part there, with the desired value |
| `Diff.DiffEmptyIffEqual` | crates/nyanpasu-core-manager/src/config/diff.rs:16-25 | the diff is empty exactly on equal documents |
| `Diff.DiffValue` | crates/nyanpasu-core-manager/src/config/diff.rs:27-68 | the recursive walk appends exactly the changes, under its path, in key order |
| `Diff.DiffEach` | crates/nyanpasu-core-manager/src/config/diff.rs:38-60 | the loop over the keys of both mappings appends exactly their changes |
| `Mihomo.VerifyIsAccepts` | crates/nyanpasu-core-manager/src/config/mihomo.rs:178-185 | checking the collected leaves is the same as matching the patch tree recursively |
| `Mihomo.ProjectionExact` | crates/nyanpasu-core-manager/src/config/diff.rs:70-94 | verification accepts a document exactly when merging the patch changes nothing and the patch's empty mappings sit on empty ones |
| `Mihomo.ProjectionWithoutEmptyMappings` | crates/nyanpasu-core-manager/src/config/mihomo.rs:335-341 | with no empty mapping in the patch, acceptance is exactly: merging changes nothing |
| `Mihomo.CollectRootsLoop` | crates/nyanpasu-core-manager/src/config/mihomo.rs:301-334 | the loop of the patch builder collects the changed roots, stopping at the first that cannot be patched |
| `Mihomo.ChangedRoots` | crates/nyanpasu-core-manager/src/config/mihomo.rs:301-312 | the roots of the diff are exactly the keys whose values differ |
| `Mihomo.PatchableDocument` | crates/nyanpasu-core-manager/src/config/mihomo.rs:301-334 | for patchable differences the built document holds exactly the changed roots, filtered to the patchable fields |
| `Mihomo.PatchReachesDesired` | crates/nyanpasu-core-manager/src/config/mihomo.rs:255-342 | whenever the verdict is Patch, merging the patch gives the desired document if and only if no changed field becomes null |
| `Mihomo.DesiredPassesProjection` | crates/nyanpasu-core-manager/src/config/mihomo.rs:325-341 | the desired document passes the projection of its own patch exactly if the patch is not empty, and an empty patch means a field became null |
| `Bootstrap.NullingIsNotPatched` | crates/nyanpasu-core-manager/src/config/mihomo.rs:325-334 | an input for which it does not: a field changed to null is dropped by the typed patch |
| `Bootstrap.PatchVerdict` | crates/nyanpasu-core-manager/src/config/mihomo.rs:255-342 | for patchable differences the verdict is Patch exactly if the enable fields are present and the values fit the typed patch, with the converted document and its leaves |
| `Bootstrap.PatchExact` | crates/nyanpasu-core-manager/src/config/mihomo.rs:255-342 | the verdict is Patch if and only if the documents differ, agree on dns.listen, part only at whole patchable values or below patchable fields of tun and tuic-server, delete nothing, keep the enable fields, and fit the typed patch |
| `Bootstrap.ReloadExact` | crates/nyanpasu-core-manager/src/config/mihomo.rs:255-286 | the verdict is Reload if and only if the documents differ, agree on dns.listen, and part only below the reloadable keys and never at dns as a whole |
| `Bootstrap.ClassifyExact` | crates/nyanpasu-core-manager/src/config/mihomo.rs:206-253 | the whole classifier: the document verdict exactly for Mihomo with the process spec equal up to the configuration path and the control plane of the sources unchanged, a no-op for other cores with equal documents, and a switch otherwise |
| `Bootstrap.ControlPlaneChanges` | crates/nyanpasu-core-manager/src/config/mihomo.rs:234-243 | the source diff touches the control plane exactly if one of the four controller keys differs, or dns.listen does with dns a mapping or absent on both sides |
| `Bootstrap.ClassifyNeverErrs` | crates/nyanpasu-core-manager/src/config/mihomo.rs:255-286 | the classifier has no error path on canonical documents |
| `Bootstrap.NonSwitchKeepsControlPlane` | crates/nyanpasu-core-manager/src/config/mihomo.rs:206-253 | anything but Switch keeps the process spec, the four controller keys and dns.listen; Noop means equal effective documents, for every kind, and equal inputs give Noop |
| `Bootstrap.NoopMeansEqual` | crates/nyanpasu-core-manager/src/config/mihomo.rs:255-262 | the document verdict is Noop exactly on equal documents |
| `Bootstrap.MihomoIsCoherent` | crates/nyanpasu-core-manager/src/config/mihomo.rs:20-133 | the concrete field tables keep the controller keys out of patch and reload, and hold the ports, tun and its enable field |
| `Bootstrap.ZeroInboundsInPlace` | crates/nyanpasu-core-manager/src/config/mihomo.rs:135-160 | the in-place zeroing loop computes the zeroed document key by key |
| `Bootstrap.SameController` | crates/nyanpasu-core-manager/src/config/mod.rs:107-150 | bootstrap and full document resolve the same controller |
| `Bootstrap.OnlyManagedController` | crates/nyanpasu-core-manager/src/config/clash.rs:60-76 | with a managed endpoint the document exposes that endpoint and neither of the other two controllers, keeps the secret, and the core is reached there |
| `Bootstrap.OwnController` | crates/nyanpasu-core-manager/src/config/mod.rs:107-150 | without one the document is the source, and the core is reached over its own non-empty HTTP address or not at all |
| `Bootstrap.RestorationIsIdentity` | crates/nyanpasu-core-manager/src/config/mihomo.rs:187-198 | zeroing and then merging the restoration patch is the identity; it fails only when the restored values do not fit the typed patch, and is empty exactly when nothing was zeroed |
| `Bootstrap.RestorationConfirms` | crates/nyanpasu-core-manager/src/config/mihomo.rs:187-198 | the full document passes the projection of its restoration patch, which is never empty |
| `Bootstrap.OverlapGate` | crates/nyanpasu-core-manager/src/config/mihomo.rs:372-445 | the gate is right if and only if no blank dns.listen hides an inbound the zeroed document opens; with the key it looks at that value alone, and names dns exactly for a listening address |
| `Bootstrap.InboundLikeMeans` | crates/nyanpasu-core-manager/src/config/mihomo.rs:435-442 | the heuristic for unknown inbound keys, read as strings with a suffix or an infix |
| `Bootstrap.BlankDnsListenHidesListeners` | crates/nyanpasu-core-manager/src/config/mihomo.rs:378-383 | a document with a blank dns.listen passes the gate although it opens a listener |
| `Canonical.CanonicalizeExact` | crates/nyanpasu-core-manager/src/config/mod.rs:153-182 | canonicalization succeeds exactly on trees with string keys and no tags, and gives the canonical tree of their meaning |
| `Canonical.CanonicalizeKeepsMeaning` | crates/nyanpasu-core-manager/src/config/mod.rs:153-182 | it preserves every lookup and is idempotent |
| `Canonical.CanonicalIsComplete` | crates/nyanpasu-core-manager/src/config/mod.rs:184-197 | two documents have the same canonical tree, so the same bytes and hash, exactly if they mean the same |
| `Canonical.OrderIsIrrelevant` | crates/nyanpasu-core-manager/src/config/mod.rs:153-182 | reordering the entries of a mapping does not change the canonical tree |
| `KeyOrder.LessMeans` | crates/nyanpasu-core-manager/src/config/mod.rs:153-182 | keys are ordered by the first place where they differ, a prefix first |
| `Fanout.StepKeeps` | crates/nyanpasu-service-runtime/src/server/manager_bridge.rs:447-506 | every step of bridge, ring and connections keeps the freshness invariant |
| `Fanout.RunKeeps` | crates/nyanpasu-service-runtime/src/server/manager_bridge.rs:447-506 | so does every run, under any interleaving |
| `Fanout.DrainedClientIsCurrent` | crates/nyanpasu-service-runtime/src/server/routing/ws.rs:44-128 | whenever the bridge has no unseen change and a connection opened after its initial read (or sent a status since) has drained its ring, its last status frame is the projection of the current status and type echo, lags included |
| `Fanout.DrainedClientExact` | crates/nyanpasu-service-runtime/src/server/manager_bridge.rs:447-506 | at rest a drained client is current if and only if its connection is one the bridge answers for, or nothing changed in projection between its own snapshot and the bridge's initial read |
| `Fanout.InFlightEndsCurrent` | crates/nyanpasu-service-runtime/src/server/routing/ws.rs:44-128 | before draining, what was received and is in flight already ends in the current projection |
| `Fanout.EarlyClientCanBeStale` | crates/nyanpasu-service-runtime/src/server/manager_bridge.rs:447-453 | a run in which a connection opened before the bridge's initial read stays stale |
| `Fanout.LegacyStream` | crates/nyanpasu-service-runtime/src/server/manager_bridge.rs:474-486 | the legacy stream never repeats a state, and at rest its last state is the current one unless the core is stopping or switching and was last reported stopped |
| `Fanout.LegacyIsFold` | crates/nyanpasu-service-runtime/src/server/manager_bridge.rs:452-486 | in every run the legacy stream is exactly a fold over the states the bridge read: stopping and switching are never heard of, and any other state is sent when it differs from the last one heard |
| `Fanout.FramesAreFaithful` | crates/nyanpasu-service-runtime/src/server/manager_bridge.rs:522-536 | a status frame determines the status and the type echo, and its two-valued state is running exactly for running, switching and stopping |
| `Health.HealthTracker.Observe` | crates/nyanpasu-core-manager/src/health/mod.rs:119-161 | the incremental tracker equals the history specification: verdict, saturated failure count and last error |
| `Health.VerdictMeans` | crates/nyanpasu-core-manager/src/health/mod.rs:119-161 | Healthy and Unhealthy each mean that their threshold was the last one reached, Starting that none was |
| `Health.EntriesAreExact` | crates/nyanpasu-core-manager/src/health/mod.rs:126-152 | Healthy is entered exactly on the success threshold of consecutive successes, Unhealthy exactly when the failures reach theirs |
| `Health.NeverStartsAgain` | crates/nyanpasu-core-manager/src/health/mod.rs:119-161 | Starting is never entered again, whatever follows |
| `Health.StreakMeans` | crates/nyanpasu-core-manager/src/health/mod.rs:119-161 | the success count is the run of successes at the end |
| `Health.FailuresAtFirst` | crates/nyanpasu-core-manager/src/health/mod.rs:126-152 | before the first success only failures at or after the end of the start period count |
| `Health.FailuresSince` | crates/nyanpasu-core-manager/src/health/mod.rs:126-152 | once there was a success, all failures since the last one count |
| `Monitor.RunMonitor` | crates/nyanpasu-core-manager/src/instance.rs:551-727 | over every sequence of inputs: the log of starts, observations, acknowledgements and publications is safe and leaves nothing due; its starts are exactly those of the inputs until the supervisor is finished; what it saw and what is queued are all the observations of the inputs, in order, at least as many seen as it had turns for; a published Running is the last one announced; a live run that is not ready has a deadline armed or cancellation requested; when done it published why |
| `Monitor.InstanceMonitor.Turn` | crates/nyanpasu-core-manager/src/instance.rs:574-726 | each branch appends exactly the events its input calls for, publishes exactly the state it calls for, and moves observations from the queue to the log; Running is published exactly when the events end in an announcement, for that pid, which is then the live and ready run's; only the end of the supervisor ends the loop |
| `RunLog.RunningMeans` | crates/nyanpasu-core-manager/src/instance.rs:734-803 | every publication of Running in a safe log is for the pid of the last start, still live; the acknowledgement just before it was the run's only one and was accepted; and all observations of that run in time, written out as run id, pid and deadline, in order, make it healthy, the last one just before |
| `RunLog.HealthyIsAnnounced` | crates/nyanpasu-core-manager/src/instance.rs:761-790 | conversely, when the observations that count make the live run healthy and none was attempted for it, the very next event is the acknowledgement, and if it is accepted the one after publishes Running for its pid |
| `RunLog.AppliesIsCounts` | crates/nyanpasu-core-manager/src/instance.rs:729-760 | an observation is applied exactly if it carries the number and pid of the last start still live and was completed by the deadline of that run, or whenever once it is ready |
| `RunLog.OncePerStart` | crates/nyanpasu-core-manager/src/instance.rs:763-803 | between two acknowledgement attempts, and between two publications of Running, there is another start |
| `RunLog.LiveRun` | crates/nyanpasu-core-manager/src/instance.rs:574-640 | the live run is exactly what happened since its start: its pid and instant, the observations that count, in order, its attempt and its readiness |
| `RunLog.SafePrefix` | crates/nyanpasu-core-manager/src/instance.rs:574-726 | every prefix of a safe log is safe, and its next event is allowed where it happens |
| `Monitor.InstanceMonitor.ApplyProbeObservation` | crates/nyanpasu-core-manager/src/instance.rs:734-803 | the tracker takes the observation exactly if it carries the live run's id and pid and neither deadline is passed, failed probes included; otherwise nothing but its being seen happens; acknowledgement is attempted exactly on the first healthy verdict of the run, and success publishes Running for it |
| `Monitor.InstanceMonitor.StaleNeverApplies` | crates/nyanpasu-core-manager/src/instance.rs:729-731 | observations of an earlier run are seen and nothing follows |
| `Monitor.InstanceMonitor.Drain` | crates/nyanpasu-core-manager/src/instance.rs:806-833 | drains until ready or empty; if not ready the published state and deadlines are unchanged |
| `Monitor.InstanceMonitor.Cancelled` | crates/nyanpasu-core-manager/src/instance.rs:375-385 | cancellation from outside: a stop publishes Stopping, dropping the handle also cancels the supervisor |
| `Monitor.InstanceMonitor.OnInitialDeadline` | crates/nyanpasu-core-manager/src/instance.rs:641-663 | at the initial deadline the instance is Running or everything is cancelled |
| `Monitor.InstanceMonitor.OnRespawnDeadline` | crates/nyanpasu-core-manager/src/instance.rs:664-684 | at a respawn deadline the run is Running or everything is cancelled, and no deadline stays armed |
| `Monitor.InstanceMonitor.OnStarted` | crates/nyanpasu-core-manager/src/instance.rs:582-611 | a start replaces the run with a fresh tracker, arms the respawn deadline iff it was ready before, and starts a driver unless cancelled |
| `Monitor.InstanceMonitor.OnSupervisor` | crates/nyanpasu-core-manager/src/instance.rs:581-640 | each event publishes its state: a restart its attempt, the end the reason by precedence of user stop, probe timeout and exit code; an exit or restart forgets the run |
| `Utf8.CharBoundaryAtOrBelow` | crates/nyanpasu-core-manager/src/log.rs:103-109 | the largest character boundary at or below the limit, less than four bytes away, cutting valid text into two valid texts |
| `Utf8.Truncate` | crates/nyanpasu-core-manager/src/log.rs:93-99 | cuts to the cap at a character boundary and says exactly whether it cut |
| `Utf8.CutIsValid` | crates/nyanpasu-core-manager/src/health/mod.rs:164-173 | a capped detail is valid text that lost fewer than four bytes of what fits |
| `Ansi.StripAnsi` | crates/nyanpasu-core-manager/src/log.rs:328-354 | the loop computes the stripped line |
| `Ansi.StripRemovesCsi` | crates/nyanpasu-core-manager/src/log.rs:338-352 | a CSI sequence up to the first byte from @ to ~ disappears and the text around it stays |
| `Ansi.StripUnfinishedCsi` | crates/nyanpasu-core-manager/src/log.rs:338-352 | an unfinished CSI sequence swallows the rest of the line |
| `Ansi.StripRemovesEscape` | crates/nyanpasu-core-manager/src/log.rs:342-345 | a lone escape disappears and the text around it stays |
| `Ansi.StripIsClean` | crates/nyanpasu-core-manager/src/log.rs:328-354 | valid text stays valid, has no escape byte left, and stripping again changes nothing |
| `LogRecords.ParseAll` | crates/nyanpasu-core-manager/src/log.rs:161-229 | over every input: each stream's frames are exactly the frames of the records its own lines form, in order, each carrying its header, marked exactly if its record does not fit, verbatim otherwise, losing text only at the line limit or for lack of room, and a prefix of its record exactly under the stated condition |
| `LogRecords.FrameDescribes` | crates/nyanpasu-core-manager/src/log.rs:46-134 | what a frame says of its record: caps, header, exact mark, verbatim text, every fitting line present, each text a prefix of the record's exactly under the condition of `PrefixExact`, and lost text only at the line limit or less than five bytes below the cap |
| `LogRecords.RecordsPartitionLines` | crates/nyanpasu-core-manager/src/log.rs:161-218 | the records of a stream hold each of its lines exactly once, in order |
| `LogRecords.RecordBoundaries` | crates/nyanpasu-core-manager/src/log.rs:161-218 | where a record starts, at which level, and whether it waits for continuations, by the header or by the text of the line; any other line joins the waiting record of its own stream |
| `LogRecords.LogParser.Push` | crates/nyanpasu-core-manager/src/log.rs:161-218 | the stripped line extends the records of its own stream as specified: where records start, which are held, and at which level; the other stream is left alone |
| `LogRecords.LogParser.Emit` | crates/nyanpasu-core-manager/src/log.rs:248-262 | the pending record leaves before the root that ends it; a held root leaves later |
| `LogRecords.LogParser.Finish` | crates/nyanpasu-core-manager/src/log.rs:222-231 | both pending records leave, the older root first |
| `LogRecords.BoundFrame` | crates/nyanpasu-core-manager/src/log.rs:116-134 | every text within its cap, marked exactly if something was cut |
| `LogRecords.AppendBounded` | crates/nyanpasu-core-manager/src/log.rs:73-90 | exactly the specified text, and cut exactly if the line did not fit with its separator |
| `LogRecords.AppendedMeans` | crates/nyanpasu-core-manager/src/log.rs:73-90 | valid text within the cap between the old text and the whole, whole if it fits, else less than five bytes below the cap |
| `LogRecords.AppendLine` | crates/nyanpasu-core-manager/src/log.rs:47-64 | a continuation is taken whole whenever both texts have room and the line limit allows, and otherwise the record is marked and closed |
| `LogRecords.AppendAfterRoot` | crates/nyanpasu-core-manager/src/log.rs:73-90 | appending any line to a root keeps a prefix of the record if and only if the root was whole, its cut filled the cap, or not even the first character of the line fits |
| `LogRecords.PrefixExact` | crates/nyanpasu-core-manager/src/log.rs:46-134 | raw text and message of a whole record are each a prefix of what was printed if and only if the root was whole, its cut filled the cap, nothing follows it, or not even the first character of the next line fits behind the cut |
| `LogRecords.CutRootGrowsAHole` | crates/nyanpasu-core-manager/src/log.rs:116-119 | for every cap there is a root after which an empty line leaves a hole |
| `PremiumClock.Stamps` | crates/nyanpasu-core-manager/src/log.rs:629-657 | the clock carried from line to line stamps each line with its inferred date |
| `PremiumClock.StampsAreTrue` | crates/nyanpasu-core-manager/src/log.rs:629-657 | for instants in order with gaps under half a day and a first delay under half a day every stamp is the true one |
| `PremiumClock.StampsExact` | crates/nyanpasu-core-manager/src/log.rs:629-657 | for instants in order, all stamps are right if and only if the first line and every later one can be dated from what is known before it |
| `PremiumClock.LaterLineExact` | crates/nyanpasu-core-manager/src/log.rs:635-638 | a later line is dated right if and only if midnight was not crossed or the gap is under half a day |
| `PremiumClock.FirstLineExact` | crates/nyanpasu-core-manager/src/log.rs:639-646 | the first line is dated right if and only if it was observed the same day or under half a day late |
| `PremiumClock.HalfADayIsTooMuch` | crates/nyanpasu-core-manager/src/log.rs:629-648 | at half a day exactly, across midnight, both rules are a day off |
| `LogSink.ArchiveAll` | crates/nyanpasu-core-manager/src/log_sink.rs:249-353 | the answer of every I/O call is given; if all succeed the archive is opened and keeps its promise, and it keeps it as long as none failed: what is left is a suffix of the old archive and the written records, in order, and all of it while there is room; everything this run wrote until the run has rotated through its budget, and a budget of full files from then on; of the old files the newest stay, as many as there is room for; closed files end with the record that crossed the limit; the active file always exists |
| `LogSink.Writer.Write` | crates/nyanpasu-core-manager/src/log_sink.rs:276-305 | as long as no I/O call failed a batch appends exactly its serializable records, and what is on disk is the newest files of the whole unpruned archive, up to the budget |
| `LogSink.Writer.FlushPending` | crates/nyanpasu-core-manager/src/log_sink.rs:310-326 | as long as no I/O call failed everything buffered goes to the active file and no other |
| `LogSink.Writer.Rotate` | crates/nyanpasu-core-manager/src/log_sink.rs:331-353 | the next file is active and empty, or a call failed and writing goes on in the old one |
| `LogSink.Writer.RollOver` | crates/nyanpasu-core-manager/src/log_sink.rs:331-353 | the prunings leave exactly the newest files around the one being written |
| `LogSink.Writer.Open` | crates/nyanpasu-core-manager/src/log_sink.rs:249-264 | a new empty file numbered past every existing one; fails only if a call does; of the existing files exactly the newest stay, as many as leave room for the new one, all of them if there is room |
| `LogSink.PruneDir` | crates/nyanpasu-core-manager/src/log_sink.rs:358-375 | exactly the newest `keep` files stay, and a protected newest file in any case |
| `LogSink.PruneTargets` | crates/nyanpasu-core-manager/src/log_sink.rs:423-426 | all but the newest; every target is older than every kept file |
| `LogSink.DroppingIsSuffix` | crates/nyanpasu-core-manager/src/log_sink.rs:358-375 | dropping the oldest files drops a prefix of the archive |
| `LogSink.RetainedSize` | crates/nyanpasu-core-manager/src/log_sink.rs:331-353 | a run that rotated through its budget still holds at least all but one budget's worth of bytes |

## Left out

- The published `CoreStatus`: it may disagree with the control state (a quarantined graceful bootstrap publishes Stopped while the old epoch stays current), so the manager model has no status.
- Operations dropped midway by a request timeout: each runs to completion under the control lock.
- Real processes, signals and the pid reaper: their answers are inputs; a confirmed stop is taken as proof of death.
- The branches for stop errors other than `StopUnconfirmed`: `stop_and_confirm_dead` returns no other error.
- Wrap-around of the 64-bit epoch and generation counters.
- Staged temporary files, permissions, symlink checks and fsync: only atomic replace, create-if-absent and the durable/uncertain flag remain.
- The bytes of YAML and JSON and the hash: an arbitrary serializer and hash function over documents. Number formatting and floats are opaque values.
- The typed `ConfigPatch` field by field: a predicate says which documents convert; conversion drops nulls and is otherwise the identity.
- Which version features allow a local controller, the checks before a launch and the config checker: their answers are inputs.
- `select!` priorities in the monitor: any enabled branch may be taken, which covers the biased order.
- Health fields of the published instance status (`changed_at`, `last_success_at`) and probe requests that only answer their caller.
- Log header parsers beyond premium's clock: each line carries what its header parser found; `at`, `epoch` and `kind` of a frame are constants of the parser.
- Dates at the ends of chrono's range, where the successor of a date does not exist; leap seconds.
- `LogSink.Writer.FlushPending`: a failed write leaves arbitrary contents in the active file, so nothing is claimed about the archive once a call failed.
- Timeouts and retries while a patch is verified: the core gives one document, one health verdict and one answer to a reload, and whether they come in time is an input.
- The log ring, socket errors and unserializable events of a connection: a closed connection just disappears.
- `clash-api`, the IPC client and server, HTTP routing other than the event socket, the command line, installers and the Windows service: no hard property.
- Field-by-field wire mappings: `Fanout.Project` carries the fields that are copied as one value.
- `Manager.CoreManager.CleanupEpoch`: a failed cleanup may leave any part of the epoch's artifacts, so nothing is claimed about its file then.
