# MQTT Trust Gateway: verified models

A Dafny model of the parts of MQTT Trust Gateway on which an installation depends when something
goes wrong, with proofs about every input, every run and every interleaving. `dafny verify
dfyconfig.toml` checks the whole project.

## What is modelled

**The crash-safe updater** (`Installation`, `Journals`, `SnapshotRestore`, `Hosts`, `Retention`,
`Controllers`, `RestoreMerge`). `Controllers.Controller` drives `Hosts.Host` and `Journals.Journal`
as the source does, one durable write at a time. `Outcomes.Fate` is the adversary: at every point an
effect may raise, or be the last thing the process does. While the updater is not looking, the
running services append writes of their own to the live runtime, and a candidate release writes what
it likes. The central definition is `Installation.Safe`: the journal always names enough to finish or
to undo what is on disk. Every method ensures `Inv()`, which contains it, however the method ends, so
it holds at every instant at which power can be lost. `Lifetime` puts the requests together.

A digest is represented by the content it identifies and a hash is injective. A runtime directory is
the sequence of writes it holds, each with its author, so that "the data of the previous release" is
a statement about who wrote what. A write stands for one change by Admin, the broker or a migration:
of the database, of Mosquitto's persistence, of certificates or of policy files. Each is either
*visible* or *forgotten*; forgotten are those that touch only what the persistent fingerprint leaves
out on purpose (scripts/updater/host.py:340-357): sessions and challenges, signature counters, the last
TOTP step, audit and traffic rows, logs, the gate file, and nine bytes of each configuration chunk of
`mosquitto.db`. A fingerprint is the sequence of visible writes with the schema and the images. So the
guard of a rollback does not promise that nothing was written since the commit; it promises that what
was written is forgotten by the fingerprint, and `Rollback` proves that all of it is in the safety
snapshot. The fields `log`, `events`, `base`, `aim` and `sealed` are ghosts: history that the program
does not keep.

**The broker policy** (`Registry`, `Requests`, `BrokerPolicy`, `BrokerHandshake`). Devices,
certificates, authorities and tombstones under every request; the access list compiled from them; and
the file protocol of Admin, the broker supervisor and the certificate renewal as a state machine
whose steps interleave freely.

**What these rest on**: the canonical form of Mosquitto's persistence file (`MqttState`), both
implementations of version precedence (`Versions`), schema migrations (`Migrations`), the ZIP writer
with its CRC against a reader of the format (`Crc`, `ZipFields`, `Zip`, `ZipReader`), and the traffic
counters with their stored copy (`Traffic`).

Code that changes state step by step is a class or a method with the source's loop, proved against a
specification function; the properties are lemmas about that function or part of an invariant.

## Findings

Where a promise does not hold of the code as it stands, the code is kept, a concrete input shows it,
and the exact condition is proved for all inputs.

- *A reboot during a rollback.* The Quadlets start the services at boot. If power is lost after the
  restored runtime has been moved into place, but before the restoration is complete or before both
  Quadlets name the previous images, the services that boot starts may write to the restored runtime
  unchecked, and the recovery no longer finds what it needs. A reboot is harmless if and only if the
  runtime is not so exposed (`RebootHarmlessUnlessExposed`); `ExposedOnTheWay` is a restoration that
  gets there and an autostart that does the harm. `ComeBack` keeps the invariant through every other
  reboot, and the recovery point through this one; `Lifetime` leaves out exactly this one.
- *Admin dying inside `syncBroker`.* After the ACL file and before the next revision a crash leaves a
  new access list under a revision that may already be acknowledged. The promise survives, in every
  continuation without further crashes, if and only if it is not (`CrashIsHarmlessUnlessTorn`): a
  crash after the broker has been restarted and has read the new list is harmless. `PolicyInForce`
  makes no claim about runs with a torn crash. In `TornCrashBreaksThePromise` nothing is pending, the
  old list stays in force, and the next unforced synchronisation is idle as long as the list of active
  serial numbers has not changed, since that list is written after the ACL file.
- *The turn of the hour.* `update` reads the clock for the bucket it adds to, and again for the
  bucket it stores. When the interval changes in between, what was just counted is missing from the
  stored copy and from the series after a restart (`TurnOfTheHour`; the equivalence is part of
  `Update`).
- *A store attached late* replaces what its interval has counted so far. The counts survive if and
  only if nothing was counted in an interval that has a stored row (`AttachStore`);
  `LateStoreLosesCounts` is a store that loses five messages. The program attaches its store before
  the first event.
- *Additional files.* The final check of a restoration compares the files of the inventory only
  (`CheckInventory`). What it accepts is the runtime of the snapshot if and only if there are no other
  files (`AcceptedIsEqualUnlessLarger`); `AdditionalFilePasses` is a write-ahead log that passes.
- *Two version grammars.* The Admin accepts a leading `v` and empty build identifiers, the updater
  does not (`LeadingV`, `EmptyBuildIdentifier`), and that is the only difference
  (`AcceptanceDiffers`).
- *A device named like the topic prefix.* The trees of two devices are separate if and only if neither
  has the name of the prefix under which all of them have their second tree (`TopicsAreSeparate`);
  `DeviceNamedLikeThePrefix` is a device `devices` that shares a topic with the device `sensor`.
- *A trust request that raises between its two saves.* The authority is saved before the files of the
  broker are rewritten, and the certificates imported from it are flagged after that. A failure in
  between leaves a valid registry if and only if there are no such certificates (`TornTrust`;
  `TornTrustOnOneCertificate` has one). They stay without trust, so nobody gains access; asking again
  fails because the authority is already trusted, and withdrawing the trust mends the registry
  (`RemoveTrustedCa`). `HandleAll` covers runs with such requests, and states what still holds.

## Model

| member | source | states |
|---|---|---|
| Controllers.Controller.Lifetime | scripts/updater/controller.py:50-72 | after any sequence of installs, rollbacks, recoveries, retries and prunings, each of which may raise or lose power between any two effects, one recovery with a working backend leaves no operation half-done; one confirmed retry finishes the operation where that is still required; and it leaves a COMPLETED, ROLLED_BACK or FAILED one on exactly one version: record, Quadlets, services and schema agree, the gate is open; an installation has kept the whole recovery point, which itself continues what was live at its start, a completed rollback runs on the older recovery point plus its own writes, and what was rolled back or failed holds the recovery point, if there is one, plus writes of the previous services; throughout, data and images changed only under the marker with both services stopped, services started only under the marker, the gate opened only after a health check with nothing changed since, and no restoration followed the commit of its operation |
| Controllers.Controller.Handle | scripts/updater/controller.py:12-113 | each kind of request keeps the invariant however it ends, and without a fault does what it is for: install, roll back, recover, retry or prune |
| Controllers.Controller.Install | scripts/updater/controller.py:12-48 | an install keeps the write-ahead invariant wherever it stops; refused while an operation is unfinished or needs recovery; COMPLETED means that the release given, with its own images, is what runs, what the Quadlets name, what is recorded and whose schema the data have; it completes only from two running services and a compatible, newer release, and with a working backend it always does then |
| Controllers.Controller.PrepareInstall | scripts/updater/controller.py:16-29 | everything before the snapshot: the release is fetched and verified, Admin and broker are running and agree to stop, and only then is a writer stopped; nothing written meanwhile is lost |
| Controllers.Controller.Commission | scripts/updater/controller.py:36-45 | the common tail of install and rollback: start, check, commit, register, open, in this order |
| Controllers.Controller.TryInstall | scripts/updater/controller.py:16-45 | the journalled steps of an install: they end COMPLETED with the given release running and recorded, or with an exception that leaves memory ahead of the journal by the release at most |
| Controllers.Controller.CarryOutInstall | scripts/updater/controller.py:15-48 | the same with its exception handler: always a terminal record unless power is lost, COMPLETED only from two running services that agreed to stop and with the images, version and schema of the release given, and then always for an installable release and a working backend |
| Controllers.Controller.Fetch | scripts/updater/controller.py:16-21 | only a signed, downloaded release whose two images carry its version, which advances the installed one and is compatible with it, with its schema and with Podman, gets past VERIFYING; nothing durable but the journal changes |
| Controllers.Controller.Announce | scripts/updater/controller.py:22-26 | STOPPING is durable before the marker is set, and only with the broker running and its policy applied; an exception before that leaves a state recovery may simply fail |
| Controllers.Controller.Quiesce | scripts/updater/controller.py:27-29 | marker set and both services stopped, after Admin and the broker, both running, have agreed; raises when either is down or a delivery is pending |
| Controllers.Controller.BackUp | scripts/updater/controller.py:30-32 | the journal names a recovery point only once it exists, verified and complete, and holds the data exactly as they were when the services stopped |
| Controllers.Controller.Mutate | scripts/updater/controller.py:33-35 | migration and activation happen only under a durable recovery point; when they succeed no write is lost |
| Controllers.Controller.Launch | scripts/updater/controller.py:36-38 | the candidate is started on the data prepared for it, whatever it then writes |
| Controllers.Controller.Decide | scripts/updater/controller.py:39-42 | the commit becomes durable only after a successful health check with nothing changed or restarted since |
| Controllers.Controller.Finish | scripts/updater/controller.py:43-45 | record, then gate, then COMPLETED, in this order; an exception leaves the committed record in the journal |
| Controllers.Controller.Begin | scripts/updater/controller.py:14 | a fresh operation records what is installed and what is live; refused exactly while one is unfinished or needs recovery |
| Controllers.Controller.Recover | scripts/updater/controller.py:50-59 | a finished operation is left alone, but for the gate of a completed one, which is opened; with a working backend a crashed operation ends COMPLETED if it was committed, FAILED and untouched if nothing had been stopped, ROLLED_BACK on its recovery point plus writes of the previous release otherwise |
| Controllers.Controller.RetryRecovery | scripts/updater/controller.py:61-72 | accepted exactly for the matching operation in RECOVERY_REQUIRED with its confirmation; goes forward if and only if committed |
| Controllers.Controller.RecoverOperation | scripts/updater/controller.py:115-143 | forward after the commit, FAILED before any mutation, otherwise back; always ends in a terminal state unless power is lost, and with a working backend in the right one |
| Controllers.Controller.GoForward | scripts/updater/controller.py:118-128 | a committed operation is completed again from any point |
| Controllers.Controller.GoBack | scripts/updater/controller.py:132-141 | back to the recovery point if there is one, then the previous services, healthy before the gate opens |
| Controllers.Controller.Reinstate | scripts/updater/controller.py:133-137 | what runs is stopped and the recovery point restored, with images and record of the previous release |
| Controllers.Controller.Relaunch | scripts/updater/controller.py:138-141 | the previous services are started and found healthy before they are released |
| Controllers.Controller.Rollback | scripts/updater/controller.py:74-113 | restores only when the confirmed source is the completed installation of record and the fingerprint still equals the one stored at its commit; any refusal changes nothing; COMPLETED means that images and record are those before the source, and that the data continue the recovery point of this very source; what the older state displaces, all writes of the source included, is kept whole in the safety snapshot |
| Controllers.Controller.TryRollback | scripts/updater/controller.py:91-110 | the journalled steps of a rollback; when they complete, the images before the source run on the runtime of its recovery point, the record says so, and the safety snapshot holds all that was live |
| Controllers.Controller.CarryOutRollback | scripts/updater/controller.py:89-113 | the same with its exception handler: from running services, COMPLETED on what the recovery point of the source holds, or ROLLED_BACK with a fingerprint that is no longer the one of the commit |
| Controllers.Controller.TakeBack | scripts/updater/controller.py:111-113 | a rollback that raises before its mutation ends ROLLED_BACK on the release it started from, with everything written meanwhile |
| Controllers.Controller.PrepareRollback | scripts/updater/controller.py:89-97 | the target is verified before anything is announced, and the writers, which were running, are stopped, with nothing visible written since the commit |
| Controllers.Controller.QuiesceUnchanged | scripts/updater/controller.py:93-97 | once the writers have stopped, the data continue those registered at the commit by forgotten writes only; otherwise it raises, and with a working backend it raises only because the fingerprint differs |
| Controllers.Controller.SaveAndRestoreTarget | scripts/updater/controller.py:98-102 | the safety snapshot, the whole runtime as the writers left it, is durable in the journal before the older state is restored |
| Controllers.Controller.RestoreTarget | scripts/updater/controller.py:101-102 | however far it gets, the state before the rollback is still live or kept whole in the target workspace |
| Controllers.Controller.PruneSnapshots | scripts/updater/host.py:368-392 | nothing at all while an operation is unfinished or what is installed cannot be told; otherwise the newest points of ended operations stay, as many as the setting says, with those of the installed and the current operation and of any that has not ended; everything else goes, and nothing that stays is changed |
| Controllers.Controller.ComeBack | scripts/updater/controller.py:50-59 | time and reboots between two runs keep the invariant, but for the reboot described under Findings, and even that one leaves the recovery point whole |
| Controllers.NoRestoreAfterCommit | scripts/updater/controller.py:118-128 | no restoration is ever executed for an operation after its commit was durable |
| Controllers.RestoreKeepsRestoring | scripts/updater/host.py:275-333 | an interrupted restoration of the recovery point can always be taken up again |
| Controllers.ExposedOnTheWay | scripts/updater/snapshots.py:230-241 | a concrete restoration of the recovery point that is interrupted in its exposed stretch, and an autostart after which the recovery does not find what it needs |
| Controllers.OneMoreEvent | scripts/updater/controller.py:26-45 | one step of the maintenance discipline: an effect that keeps its own rule keeps the discipline of the whole history, which is part of the invariant and so a result of `Lifetime` |
| Journals.PointOfNoReturn | scripts/updater/journal.py:86-96 | over every journal: once a record is committed, later records of that operation are committed and only COMMITTING, COMPLETED or RECOVERY_REQUIRED |
| Journals.FinishedForGood | scripts/updater/journal.py:70-80 | a COMPLETED, ROLLED_BACK or FAILED operation never appears again |
| Journals.RecoveryPointIsFixed | scripts/updater/journal.py:86-96 | a recovery point once durable is never replaced by another |
| Journals.Journal.Begin | scripts/updater/journal.py:70-80 | a new record under a fresh id, refused exactly while the last operation is unfinished or RECOVERY_REQUIRED |
| Journals.Journal.Write | scripts/updater/journal.py:82-84 | a crash leaves the old record or the new one; a history file always holds a record that operation.json has held for the operation, and the latest one when the call returns |
| Journals.Journal.Transition | scripts/updater/journal.py:86-96 | refused exactly for a terminal record and for ROLLING_BACK after the commit |
| Installation.ServedKeepsSafe | scripts/updater/controller.py:24-45 | whatever the running services write, the journal still names enough to finish or to undo |
| Installation.RebootKeepsSafe | scripts/updater/controller.py:115-143 | so does a loss of power, unless the restored runtime stands exposed to an autostart |
| Installation.RebootHarmlessUnlessExposed | scripts/updater/host.py:275-333 | exactly when a reboot is harmless to a pending restoration |
| Installation.SameFingerprintMeansForgotten | scripts/updater/host.py:340-357 | of data that have only grown, the fingerprint is unchanged if and only if every write since is one it leaves out |
| Installation.VisibleExtends | scripts/updater/host.py:340-357 | what a fingerprint sees only grows with the data, and stays the same exactly under forgotten writes |
| Installation.DifferenceLasts | scripts/updater/controller.py:93-97 | a fingerprint that has changed does not come back while the data grow |
| Installation.RefusedExactly | scripts/updater/releases.py:91-101 | a manifest is refused exactly for the four reasons of the source; what is equal to a minimum or to the present schema is not refused |
| SnapshotRestore.RuntimeStore.Restore | scripts/updater/snapshots.py:193-266 | one attempt: refusals change nothing; the original runtime stays whole in the live place or in `previous-runtime`; a runtime moved into place earlier, whatever has happened to it, is accepted exactly on the files of the inventory; on its own leftovers a working attempt succeeds, so its errors about ambiguous, missing or differing runtimes do not occur |
| SnapshotRestore.RuntimeStore.RestoreAfterInterruptions | scripts/updater/snapshots.py:193-266 | any number of interrupted attempts and a working one leave what a single uninterrupted attempt leaves: the snapshot live, the original displaced, the configuration restored |
| SnapshotRestore.RuntimeStore.Swap | scripts/updater/snapshots.py:230-241 | two renames, resumable after either; a displaced runtime is never overwritten: with one there and another live, the attempt raises and changes nothing |
| SnapshotRestore.RuntimeStore.RestoreConfig | scripts/updater/snapshots.py:248-262 | every configuration file is the old one or the one of the snapshot, and in the end all are the latter |
| SnapshotRestore.EveryFileIsRestored | scripts/updater/snapshots.py:248-262 | no configuration file is left out of a complete snapshot, nor of its restoration |
| SnapshotRestore.RuntimeStore.CheckInventory | scripts/updater/snapshots.py:243-247 | the loop of the final check accepts exactly when every file of the inventory is there with its digest |
| SnapshotRestore.AcceptedIsEqualUnlessLarger | scripts/updater/snapshots.py:243-247 | the live files are those of the snapshot if and only if the check accepts them and nothing else is there |
| SnapshotRestore.AdditionalFilePasses | scripts/updater/snapshots.py:243-247 | a concrete additional file, a write-ahead log, that the check accepts |
| Hosts.Host.EnterMaintenance | scripts/updater/host.py:142-148 | the marker is durable when the call returns |
| Hosts.Host.LeaveMaintenance | scripts/updater/host.py:142-156 | an exception may leave the gate already open; a return means that it is and that the broker runs |
| Hosts.Host.PrepareStop | scripts/updater/host.py:157-160 | Admin must answer and have delivered everything, and the broker must acknowledge the marker: a return means both run |
| Hosts.Host.Preflight | scripts/updater/host.py:122-140 | a return means no pending policy, a running broker, and running images that are those of record |
| Hosts.Host.Installed | scripts/updater/host.py:67-72 | the record, or without one what the running Admin says; raises when it is down |
| Hosts.Host.Resolve | scripts/updater/host.py:91-100 | a return means the manifest is the one asked for, advances the installed release and is compatible: minimum versions met, no downgrade of the schema, and a declared migration for a change of it |
| Hosts.Host.Download | scripts/updater/host.py:105-107 | a return means that both images of the release have been pulled |
| Hosts.Host.VerifyImages | scripts/updater/host.py:109-120 | succeeds exactly on pulled images that carry the version of the release |
| Hosts.Host.Stop | scripts/updater/host.py:162-166 | Admin, then broker; both are down when it returns, and only what ran could still write |
| Hosts.Host.Start | scripts/updater/host.py:232-235 | broker, then Admin, from the images of the Quadlets, and only on a runtime that is there |
| Hosts.Host.Health | scripts/updater/host.py:236-273 | succeeds only if both services run the release on its schema |
| Hosts.Host.TakeSnapshot | scripts/updater/host.py:182-191 | a recovery point appears under a new id at once and complete, with what is live |
| Hosts.Host.MigrateData | scripts/updater/host.py:193-221 | nothing, or the live database without its write-ahead log when interrupted there, or one atomic step of all data to the schema of the release |
| Hosts.BrokerWritesAreKept | scripts/updater/host.py:193-221 | what removing the write-ahead log may take away is never a write of the broker |
| Hosts.Host.ActivateImages | scripts/updater/host.py:223-230 | each Quadlet names the old or the new image, in the end both the new; no change of a Quadlet goes unrecorded |
| Hosts.Host.Register | scripts/updater/host.py:359-366 | writes the installed record once; repeating it changes nothing |
| Hosts.Host.RestorePoint | scripts/updater/host.py:275-333 | data, then Quadlets, then record: images or record change only after the runtime is complete |
| Hosts.Host.PersistentFingerprint | scripts/updater/host.py:340-357 | identifies the visible writes of the live runtime, its schema and the images |
| Retention.Newest | scripts/updater/host.py:381-392 | the retained candidates are the newest `keep`: none left out is newer than one kept |
| Retention.PlaceKeepsOrder | scripts/updater/host.py:389 | insertion keeps the list sorted by age and free of duplicates |
| Retention.Keep | scripts/updater/host.py:375-376 | a setting from 2 to 100 is kept to; for anything else it is five |
| RestoreMerge.AuditIsTheUnion | scripts/updater/host.py:308-312 | the merged audit contents are the union of both sides, rows of the snapshot keep their ids, and nothing is invented |
| RestoreMerge.MergingAgainChangesNothing | scripts/updater/host.py:308-312 | merging the same rows a second time has no effect |
| RestoreMerge.TrafficMergesOnce | scripts/updater/host.py:313-316 | the pointwise maximum is symmetric and idempotent |
| RestoreMerge.TrafficIsTheLarger | scripts/updater/host.py:313-316 | every interval of either side is kept, each count the larger of the two |
| RestoreMerge.Database.CopyAudit | scripts/updater/host.py:308-312 | the row-by-row loop computes the specified merge |
| RestoreMerge.Database.InsertAudit | scripts/updater/host.py:312 | an absent row id becomes one more than the largest |
| RestoreMerge.Database.CopyTraffic | scripts/updater/host.py:313-316 | the upserts compute the pointwise maximum |
| RestoreMerge.Database.Observe | scripts/updater/host.py:302-323 | an unreadable table anywhere undoes everything copied |
| RestoreMerge.MergeUsers | scripts/updater/host.py:292-300 | every credential counter and TOTP step known to both sides becomes the larger one, all else stays |
| RestoreMerge.MergeCredentials | scripts/updater/host.py:295-297 | the inner loop over the credentials of one user |
| RestoreMerge.CountersNeverFall | scripts/updater/host.py:295-297 | no credential known to both sides can be replayed after an uninterrupted restoration, and no one-time code of an unchanged secret |
| BrokerHandshake.PolicyInForce | admin-web/src/services/certificate-service.js:521-575 | under every interleaving of staging, immediate synchronisation, apply, certificate renewal, broker restarts and crashes of Admin that do not tear an operation: while Admin is between operations, nothing is pending and the current revision is acknowledged, the ACL the broker loaded is the ACL file |
| BrokerHandshake.SyncAchieves | admin-web/src/services/certificate-service.js:526-566 | whatever supervisor and renewal do meanwhile, a synchronisation that has ended has put the given list into the files; staged, it has left the revision to others and a fresh one pending; immediate, it has submitted a fresh one and left nothing pending |
| BrokerHandshake.SyncEnds | admin-web/src/services/certificate-service.js:559-566 | undisturbed, it ends after four writes or, staged, three, in exactly that state |
| BrokerHandshake.SyncIsIdle | admin-web/src/services/certificate-service.js:559 | without a change an unforced synchronisation leaves every file alone |
| BrokerHandshake.ApplyAchieves | admin-web/src/services/certificate-service.js:569-575 | applying moves the pending revision itself to the supervisor, and does nothing without one |
| BrokerHandshake.PassCatchesUp | scripts/broker-entrypoint.sh:59-84 | one pass of the supervisor puts the list of the files in force and acknowledges their revision |
| BrokerHandshake.SyncTakesEffect | admin-web/src/services/certificate-service.js:521-566 | an immediate synchronisation and one pass of the supervisor put exactly the given list in force |
| BrokerHandshake.RenewalIsNew | scripts/broker-entrypoint.sh:59-84 | a renewed broker certificate asks for a restart under a revision nobody has acknowledged |
| BrokerHandshake.StepKeepsInv | scripts/broker-entrypoint.sh:59-84 | every file step of Admin and of the supervisor keeps the invariant |
| BrokerHandshake.RunKeepsInv | scripts/broker-entrypoint.sh:59-84 | so it holds throughout every run |
| BrokerHandshake.CrashIsHarmlessUnlessTorn | admin-web/src/services/certificate-service.js:559-565 | after a crash of Admin the promise holds in every continuation without further crashes if and only if the revision the files point to was not already acknowledged for an older list |
| BrokerHandshake.TornIsExposed | admin-web/src/services/certificate-service.js:559-565 | a torn state leads to a broken promise in at most four ordinary steps |
| BrokerHandshake.TornCrashBreaksThePromise | admin-web/src/services/certificate-service.js:559-565 | a crash between the ACL file and the pending file, from any settled state: the old policy stays in force with nothing pending, and the next synchronisation does not repair it as long as the list of active serials is the same |
| BrokerPolicy.CompileAcl | admin-web/src/services/certificate-service.js:526-550 | lists the Admin, the probe once its certificate exists, and exactly the active, enabled, trusted devices with a live, trusted, unexpired certificate, one paragraph each; every paragraph matches exactly the topics its user is meant to have, patterns read as sections 4.7.1.2 and 4.7.2 of MQTT 5.0 say |
| BrokerPolicy.DeviceGrants | admin-web/src/services/certificate-service.js:549 | the two patterns of a device match its own tree and its tree under the prefix, and no other topic |
| BrokerPolicy.AdminGrants | admin-web/src/services/certificate-service.js:528 | the Admin writes every topic but those that begin with a dollar sign, of which it reads `$SYS` |
| BrokerPolicy.ProbeGrants | admin-web/src/services/certificate-service.js:530-531 | the probe has its own tree and nothing else |
| BrokerPolicy.ListKeepsDevicesApart | admin-web/src/services/certificate-service.js:526-550 | in every compiled list no device reads a topic of the probe or of `$SYS`, and two devices share a topic only if one is named like the prefix |
| BrokerPolicy.DeviceParagraphsAreTheirOwn | admin-web/src/services/certificate-service.js:530-541 | a device paragraph is never the one of the Admin or of the probe, and reaches neither the topics of the probe nor `$SYS` |
| BrokerPolicy.TopicsAreSeparate | admin-web/src/services/certificate-service.js:549 | two devices have no topic in common if and only if neither is named like the topic prefix |
| BrokerPolicy.DeviceNamedLikeThePrefix | admin-web/src/services/certificate-service.js:539-549 | a concrete device named like the default prefix that is accepted and shares a topic with another |
| BrokerPolicy.OutOfEveryAclUntilGranted | admin-web/src/services/certificate-service.js:533-550 | in any run a device without access is in no ACL compiled at any later time until a request approves or enables that very device |
| BrokerPolicy.Serve | admin-web/src/services/certificate-service.js:526-550 | serves any sequence of requests and compiles the list after each: a device without access at the start has no paragraph in any of them before a request that approves or enables it |
| Registry.NothingIsUndone | admin-web/src/services/identity-service.js:27-57 | over any run deleted identities never reappear, every certificate stays in the registry or in a tombstone, and one that has left `active` never returns to it |
| Registry.BlockedUntilGranted | admin-web/src/routes/certificate-routes.js:358-416 | in any run nobody gains access but by a step that grants it to that identity |
| Registry.RunIsSound | admin-web/src/routes/certificate-routes.js:71-98 | unique identities and fingerprints, both disjoint from the tombstones, and recorded issuers hold in every registry of a run, torn requests included |
| Registry.AgreesUntilTorn | admin-web/src/routes/certificate-routes.js:172-191 | imported certificates carry the trust of their authority as long as no request tears on that authority |
| Registry.RewritingIsOk | admin-web/src/routes/certificate-routes.js:292-317 | changes in place keep all of it |
| Registry.AddingCertificateIsOk | admin-web/src/routes/certificate-routes.js:90-98 | a new fingerprint is no duplicate and comes from no tombstone |
| Registry.AddingDeviceIsOk | admin-web/src/routes/certificate-routes.js:76-88 | a new identity starts disabled and reuses no deleted name |
| Registry.BuryingIsOk | admin-web/src/services/identity-service.js:42-52 | a tombstone takes over every fingerprint of the identity it replaces |
| Registry.WithoutKeepsOthers | admin-web/src/services/identity-service.js:52 | deletion drops exactly the certificates of the identity, and leaves the others as they are and distinct |
| Registry.FingerprintsOfAll | admin-web/src/services/identity-service.js:32-46 | the tombstone lists exactly the fingerprints of the identity |
| Registry.TrustChangeIsOk | admin-web/src/routes/certificate-routes.js:172-191 | setting or clearing the flag of all certificates of an authority makes them agree with the list of authorities, whatever was before, and keeps all others as they were |
| Registry.TornTrust | admin-web/src/services/certificate-service.js:351-364 | a trust request that raises after its first save leaves a valid registry if and only if no certificate has been imported from that authority, and never harms anything else |
| Registry.TornTrustOnOneCertificate | admin-web/src/services/certificate-service.js:360-362 | a concrete registry with one imported certificate that such a request leaves invalid |
| Registry.DroppingRequestIsOk | admin-web/src/routes/certificate-routes.js:239-247 | a cancelled request leaves everything issued in place |
| Requests.EnsureIdentityIsOk | admin-web/src/routes/certificate-routes.js:76-88 | an identity made on the way keeps the registry valid |
| Requests.Gateway.HandleAll | admin-web/src/routes/certificate-routes.js:138-424 | any sequence of requests, failures between two saves included, from any sound registry such as the empty one: the registry stays sound, nothing deleted or blocked comes back without a request that approves or enables that very identity, certificates agree with an authority until a request tears on it, and without torn requests every registry is valid |
| Requests.Gateway.Handle | admin-web/src/routes/certificate-routes.js:138-424 | each kind of request is carried out exactly when what it needs is there, and has then achieved exactly what it is for, with all else as it was (`Acceptable`, `Achieved`); it keeps the registry sound and grants access to nobody but the identity it approves or enables, and only to one with a usable certificate; only a torn trust request breaks an agreement, and then always; a refusal changes nothing |
| Requests.IdentifierRules | admin-web/src/routes/certificate-routes.js:77 | identifiers have 1 to 64 characters, each a letter, digit, full stop, hyphen or underscore of ASCII, and are not the one of the Admin |
| Requests.ArchiveIsKeptThirtyDays | admin-web/src/services/identity-service.js:4-62 | an archive is deleted by its age exactly from the thirtieth day on, an active or new device never |
| Requests.Gateway.CreateDevice | admin-web/src/routes/certificate-routes.js:333-356 | succeeds exactly for a valid, unused, never deleted name |
| Requests.Gateway.PatchDevice | admin-web/src/routes/certificate-routes.js:357-378 | enabling needs an active device with a usable certificate; disabling withdraws access |
| Requests.Gateway.ApproveDevice | admin-web/src/routes/certificate-routes.js:408-416 | grants access only with confirmation and a usable certificate |
| Requests.Gateway.RestoreDevice | admin-web/src/routes/certificate-routes.js:401-407 | a restored identity has no access |
| Requests.Gateway.ArchiveDevice | admin-web/src/routes/certificate-routes.js:379-400 | in every registry it saves, before and after each certificate enters the revocation list, the device has no access and no live certificate; it fails exactly at the first entry that fails, with the certificates before it revoked |
| Requests.ArchivingIsOk | admin-web/src/routes/certificate-routes.js:384-396 | every stage of an archive keeps the registry valid and the device out |
| Requests.Gateway.RevokeArchived | admin-web/src/routes/certificate-routes.js:392-396 | the loop over the archived certificates, saving after each |
| Requests.Gateway.RevokeCertificate | admin-web/src/routes/certificate-routes.js:292-317 | the certificate is revoked for good and its device disabled |
| Requests.Gateway.RemoveLicense | admin-web/src/routes/certificate-routes.js:139-160 | the certificate is revoked, and the device blocked unless the revocation list does it |
| Requests.Gateway.PermanentlyDelete | admin-web/src/services/identity-service.js:27-57 | exactly this identity goes, leaving a tombstone with all its fingerprints |
| Requests.Gateway.DeleteDevice | admin-web/src/routes/certificate-routes.js:417-423 | deletes exactly on the confirmed name of a known device, and nothing but that device, its certificates included, with a tombstone for all its fingerprints |
| Requests.Gateway.PurgeExpiredArchives | admin-web/src/services/identity-service.js:59-66 | deletes every archive whose time has come, and no other device or certificate; when a deletion cannot be carried over to the broker, the rest stays for the next time |
| Requests.Gateway.Issue | admin-web/src/routes/certificate-routes.js:99-137 | issuing and renewing keep the registry valid, for active identities only |
| Requests.Gateway.Generate | admin-web/src/routes/certificate-routes.js:217-230 | a generated certificate is live for an identity that was never deleted |
| Requests.Gateway.RequestExternalSignature | admin-web/src/routes/certificate-routes.js:231-238 | puts exactly one waiting record in front |
| Requests.Gateway.CancelRequest | admin-web/src/routes/certificate-routes.js:239-247 | removes a waiting record and nothing else |
| Requests.Gateway.ConfirmKeyReceived | admin-web/src/routes/certificate-routes.js:257-263 | marks exactly a waiting request whose key has been downloaded |
| Requests.Gateway.JudgeIssuer | admin-web/src/services/certificate-service.js:321-347 | the loop over the candidate anchors: trusted if and only if some trusted anchor verifies the certificate, and then such an anchor is the recorded issuer |
| Requests.Gateway.Import | admin-web/src/routes/certificate-routes.js:264-279 | accepts only new, verified certificates of the named identity; `brokerTrusted` is the verdict on the anchors |
| Requests.Gateway.AddTrustedCa | admin-web/src/services/certificate-service.js:351-364 | approval turns on exactly the certificates of that authority; when the files of the broker cannot be rewritten, the authority is saved and the certificates are not |
| Requests.Gateway.RemoveTrustedCa | admin-web/src/routes/certificate-routes.js:183-191 | removal turns off exactly the certificates of that authority, and restores the agreement a torn request has broken |
| Requests.AnchorsAreAll | admin-web/src/services/certificate-service.js:323-328 | the anchors tried are the internal authority and all trusted ones |
| MqttState.SameFingerprint | scripts/updater/mqtt_state.py:16-40 | with an injective hash, fingerprints are equal if and only if the files are identical or both parse as format 6 with equal bags of canonical chunks; raw and parsed forms never coincide |
| MqttState.CanonicalForgetsNineBytes | scripts/updater/mqtt_state.py:32-36 | two chunks have the same canonical form if and only if they are equal or differ in the first nine bytes of a configuration only |
| MqttState.ComputeFingerprint | scripts/updater/mqtt_state.py:17-40 | the single read loop computes the fingerprint of the recursive parser, fallbacks included |
| MqttState.FormatIsRead | scripts/updater/mqtt_state.py:16-40 | every file written in format 6 with one configuration is read back chunk by chunk |
| MqttState.ReadChunk | scripts/updater/mqtt_state.py:26-37 | one round of the loop reads the first chunk of the rest, or rejects it |
| MqttState.DigestsFaithful | scripts/updater/mqtt_state.py:37-40 | bags of digests agree if and only if the bags of chunks do |
| MqttState.SortedSorts | scripts/updater/mqtt_state.py:40 | sorting yields an ascending permutation |
| MqttState.AscendingIsUnique | scripts/updater/mqtt_state.py:40 | the ascending permutation of a bag is unique |
| Versions.BothSidesAgree | admin-web/src/services/system-updates.js:15-45 | below 2^53 both sides order any two versions alike, as the standard says |
| Versions.AcceptanceDiffers | admin-web/src/services/system-updates.js:15-22 | the updater accepts exactly what the Admin accepts without a leading `v` and without empty build identifiers |
| Versions.AdminAccepts | admin-web/src/services/system-updates.js:15-22 | the Admin accepts exactly the strings that match its regular expression and whose prerelease identifiers are proper |
| Versions.UpdaterAccepts | scripts/updater/releases.py:11-22 | the updater accepts exactly the strings that match its regular expression with proper prerelease and build identifiers |
| Versions.WrittenVersionIsRead | admin-web/src/services/system-updates.js:15-22 | three numbers and a prerelease, written out, are read back as those numbers and identifiers |
| Versions.IdentifierCharacters | admin-web/src/services/system-updates.js:17 | identifiers are made of the digits, the letters of ASCII, hyphens and full stops |
| Versions.NumbersAreProper | admin-web/src/services/system-updates.js:19-20 | a numeric identifier is proper exactly if it is its number written out |
| Versions.MatchIsExact | scripts/updater/releases.py:11-14 | the matcher finds the groups of the regular expression, and there is only one way to match |
| Versions.LeadingV | admin-web/src/services/system-updates.js:17 | `v1.0.0` is accepted by the Admin only |
| Versions.EmptyBuildIdentifier | scripts/updater/releases.py:17-19 | `1.0.0+a..b` is accepted by the Admin only |
| Versions.KeysFollowTheStandard | scripts/updater/releases.py:11-23 | the order of the keys is precedence as section 11 of Semantic Versioning 2.0.0 states it, both ways |
| Versions.KeysOrdered | scripts/updater/releases.py:14-23 | the order is total, antisymmetric and transitive |
| Versions.NumeralsAreUnique | admin-web/src/services/system-updates.js:20 | without leading zeros equal numbers are equal strings |
| Versions.SameIdentifier | admin-web/src/services/system-updates.js:38-42 | comparing identifiers as text first is comparing their keys |
| Versions.CompareSemVer | admin-web/src/services/system-updates.js:24-45 | the field-by-field loop computes that order, and fails exactly on an invalid version |
| Versions.SelectLatestRelease | admin-web/src/services/system-updates.js:179-189 | the release offered is the first listed among the newest of the eligible ones, newer than the installed version and, outside the beta, no prerelease; none is offered exactly when there is none |
| Versions.SortedHeadIsNewest | admin-web/src/services/system-updates.js:187-188 | the head of the sorted list is a maximum |
| Versions.SortedHeadIsFirst | admin-web/src/services/system-updates.js:187-188 | of candidates that are equally new the head is the one published first in the list |
| Migrations.FindPath | admin-web/src/migrations/index.js:20-26 | finds the path that leaves no choice at any step, or fails exactly when there is none; the search ends because the cursor climbs |
| Migrations.PathIsUnique | admin-web/src/migrations/index.js:23-25 | a path without choices is the only path there is |
| Migrations.StuckMeansNoPath | admin-web/src/migrations/index.js:24 | where the search gives up, every path has a choice |
| Migrations.RestOfPath | admin-web/src/migrations/index.js:27-41 | what an interruption leaves of the path is again the one path from the version reached, and leads to the same database |
| Migrations.InterruptionsDoNotMatter | admin-web/src/migrations/index.js:15-43 | however often it is interrupted, the upgrade ends with the schema, data and ledger of one uninterrupted run |
| Migrations.LedgerRecordsPath | admin-web/src/migrations/index.js:33 | the ledger gains exactly the migrations of the path, in order |
| Migrations.DataIsChangedAlongPath | admin-web/src/migrations/index.js:27-41 | an upgrade makes every change of its path to the data, in order |
| Migrations.Database.Transact | admin-web/src/migrations/index.js:28-40 | one migration happens wholly or not at all |
| Migrations.Database.ApplyPath | admin-web/src/migrations/index.js:27-41 | a failure at step k leaves the database as after step k - 1 |
| Migrations.Database.Migrate | admin-web/src/migrations/index.js:15-43 | unsupported targets and ambiguous registries change nothing; success reports the path applied |
| Crc.Crc32 | admin-web/src/zip.js:6-10 | the table-driven checksum equals the bit-serial CRC of RFC 1952 section 8 on every message |
| Crc.LookupIsEightBits | admin-web/src/zip.js:8 | one lookup does the work of eight bits |
| Crc.BuildTable | admin-web/src/zip.js:1-5 | the table holds the eight-fold shift of every byte |
| Crc.BurstIsDetected | admin-web/src/zip.js:6-10 | damage within four neighbouring bytes always changes the checksum |
| Crc.ChecksumIsAWord | admin-web/src/zip.js:9 | the checksum fits its field |
| Crc.PolynomialIsReflected | admin-web/src/zip.js:4 | the constant of the table is the generator polynomial of RFC 1952 with its coefficients reflected |
| Crc.KnownEntries | admin-web/src/zip.js:1-5 | the table entries for 4, 8 and so on to 128, the last of which is the polynomial |
| Crc.KnownChecksums | admin-web/src/zip.js:6-10 | two known check values, of the empty message and of four bytes 255 |
| Zip.ZipFiles | admin-web/src/zip.js:12-35 | yields the archive of the files, or fails exactly when some count, length or offset overflows its field |
| Zip.WriteFile | admin-web/src/zip.js:15-29 | the two buffers one file adds, or the overflow |
| Zip.WriteUInt32 | admin-web/src/zip.js:18-33 | the in-place little-endian write, refused exactly when the value does not fit |
| Zip.Sizes | admin-web/src/zip.js:28-33 | the running offset and the directory size are those of the concatenated buffers |
| ZipReader.RoundTrip | admin-web/src/zip.js:12-35 | a reader that follows APPNOTE 4.3.7, 4.3.12 and 4.3.16 recovers exactly the given files in order |
| ZipReader.OffsetsAreExact | admin-web/src/zip.js:23-33 | every central offset leads to its own member; the end record is exact |
| ZipReader.MembersReadBack | admin-web/src/zip.js:12-35 | the container round trip, whatever the checksums |
| Traffic.TrafficMetrics.Update | admin-web/src/services/traffic-metrics.js:22-33 | each bucket holds exactly the sum of the non-negative deltas of its interval; the stored rows keep up if and only if the interval does not change between the first two of the three clock readings, or the older bucket needs no row |
| Traffic.TrafficMetrics.PublicationFailed | admin-web/src/services/traffic-metrics.js:34 | counts one failure and keeps store and buckets in agreement |
| Traffic.TrafficMetrics.Add | admin-web/src/services/traffic-metrics.js:26-30 | the first report and a smaller one add nothing, any other its difference, to the interval of the report |
| Traffic.VolumeIsTheDifference | admin-web/src/services/traffic-metrics.js:26-30 | any number of reports of a counter that climbs within one interval add up to the last less the first, and to nothing for any other counter |
| Traffic.RestartAddsNothing | admin-web/src/services/traffic-metrics.js:29 | a counter that has been restarted adds nothing by its first report |
| Traffic.TrafficMetrics.Bucket | admin-web/src/services/traffic-metrics.js:14-19 | opens the bucket of the interval and drops those that left the window |
| Traffic.TrafficMetrics.AttachStore | admin-web/src/services/traffic-metrics.js:7-12 | the first store attached is read over the buckets, a second one ignored; every bucket is still the stored sample plus what was counted if and only if nothing had been counted in an interval that has a stored row |
| Traffic.LateStoreLosesCounts | admin-web/src/services/traffic-metrics.js:7-12 | a concrete store attached late that loses five messages |
| Traffic.TrafficMetrics.Snapshot | admin-web/src/services/traffic-metrics.js:35-42 | the series has one point an interval up to the current one, each with the tally of its interval: exactly `capacity` points, or more when the interval turns while the loop reads the clock again |
| Traffic.Store.Save | admin-web/src/services/traffic-store.js:11-14 | upsert, then deletion before the cutoff |
| Traffic.SavedLater | admin-web/src/services/traffic-metrics.js:29-31 | when the clock readings leave store and buckets in agreement, as an equivalence |
| Traffic.TurnOfTheHour | admin-web/src/services/traffic-metrics.js:27-31 | a concrete turn of the hour at which they part |
| Traffic.ReloadShowsTheSame | admin-web/src/services/traffic-store.js:9-15 | the series after a restart is the series there would have been without it |
| Traffic.Restart | admin-web/src/services/traffic-metrics.js:7-12 | a restarted program takes up exactly the stored window |

## Left out

- Podman, systemd, OpenSSL, GPG, SQLite and HTTP: each call is an effect that succeeds, raises or is interrupted; signature and chain checks are parameters.
- Journal writes that raise instead of stopping the process, which leave memory ahead of the disk; `journal.read` rejecting a malformed file.
- The fields `events`, `errorCode`, `failedStage`, `maintenance` and the timestamps of a journal record, which no decision reads.
- The lock around each operation: operations do not overlap in the model.
- Operation ids and revisions are counters instead of random UUIDs, so they are fresh by construction.
- The enabling flow of the updater command, the export of a snapshot, and the notification state shown before the first operation.
- The internals of the health probe: one outcome that implies both services run the release on its schema.
- File modes, environment contents beyond their identity, free space, archive path and link checks.
- The writes that restoring adds to the restored database (emptied sessions and challenges, merged audit and traffic rows, raised counters) are not part of `Installation.Runtime`; they are modelled on their own in `RestoreMerge`.
- RestoreMerge.MergeUsers: an interrupted restoration that is taken up again reads the already restored database, so the maximum is claimed for an uninterrupted one only.
- SnapshotRestore.RuntimeStore.Restore: the extraction is one step, since a partial one lies under another name and is removed first.
- Controllers.Controller.ComeBack: does not keep the whole invariant through a reboot while the restored runtime is exposed, for the reason given under Findings.
- Controllers.Controller.PruneSnapshots: a recovery point that is deleted halfway counts as deleted; the setting is a parameter, so the read of the database that may fail before it is not modelled.
- Installation.SameFingerprintMeansForgotten: the fingerprint is taken of the visible writes and not of the state they lead to, so visible writes that cancel out count as a difference here and not in the program.
- Hosts.Host.PersistentFingerprint: the environment file, the network unit and the text of the Quadlets, all of which the program hashes, are represented by the two images.
- Hosts.Host.RestorePoint: the source writes image ids into the Quadlets where an activation writes references. The text differs, so after an upgrade that was taken back the program refuses a guarded rollback of the installed release that the model permits.
- Hosts.Host.Start: does not ask whether the images are still in local storage, since only the owner removes them.
- Services that stop or come up by themselves between two steps of the updater (`Restart=on-failure`); in the model they stop with the updater or the host, and start with either.
- Hosts.Host.Preflight: `podman info`, the mark in the Quadlets, free space and the label of the broker container are checks that raise or not; only the broker's presence and its policy files are modelled.
- Retention.Newest: the order of points with equal modification times is left open, as the file system leaves it.
- BrokerHandshake.PolicyInForce: says what is in force, not when; `SyncTakesEffect` says what one pass of the supervisor does, and no bound is claimed on how long it takes to come.
- The audit cursor written before each revision, the log trimming and the gate mode of the supervisor.
- The list of active serials in `policy-state` is a string that changes when it changes.
- A request that raises after its last save: it answers with an error, and leaves what the model says of its success.
- Requests arrive one after another; two Admin requests that interleave between their awaits are not modelled.
- Requests.Gateway.Issue: the fingerprint of a freshly signed certificate is assumed new, since the authority gives every certificate its own serial number; `Handle` passes over a request that contradicts this.
- PEM, X.509 and CSR parsing, key checks, validity dates of authorities, names, descriptions and labels of devices, one-time key delivery.
- The `enabled` flag of a trusted authority, which is always set when one is added and never cleared.
- Versions.BothSidesAgree: beyond 2^53 the Admin rounds core numbers, which the parameter `number` leaves open.
- Versions.SelectLatestRelease: draft flags, channels by name and asset lists of a published release are reduced to its tag.
- Migrations.Database.Migrate: what a migration does to the data is a parameter, and SQLite's 32-bit limit on `user_version` is not modelled; timestamps in the ledger are left out.
- Crc.BuildTable: words are natural numbers with exclusive or defined digit by digit, so the signed intermediate values of JavaScript do not appear.
- Zip.ZipFiles: the three buffers a file adds to `local` and the two it adds to `central` are joined when they are added instead of at the end; names arrive in the order in which the object lists them, already in UTF-8.
- Traffic.TrafficMetrics.Snapshot: the counters, the availability and the window bounds reported beside the series; counts beyond 2^53.
- Sessions, cookies, passkeys, TOTP entry, reveal grants, the Unix socket server, routing, the user interface, logs and configuration parsing.
