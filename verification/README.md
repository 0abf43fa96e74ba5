# NetBox configuration backup: the model and its proofs

The plugin collects configurations from devices, stores each change as a revision, copies revisions
to FTP servers and mounted storage, audits and deletes those copies, and schedules all of this. This
project models the parts in which steps depend on each other, and proves what holds over every run
of them. Check it with `dafny verify dfyconfig.toml`.

## The parts

**The remote replica protocol** (`RemoteTree`, `ReplicaSteps`, `FtpInspection`, `FtpReplication`,
`FtpDeletion`, `FtpAudit`, `ReplicaHistory`). An FTP server is an object that holds a tree of
directories and files. Each command may fail, lose its reply or be the last one before a crash; an interrupted upload leaves
arbitrary bytes; a rename may happen although its reply is an error. How far a server is to be
believed is a parameter: a *hostile* one may say anything in listings and error replies, an *honest*
one lists completely and says "missing" only of what is missing, a *reliable* one also carries out
every possible command, with its own wording of replies (its profile). Two things are assumed of
every server: a download reported complete is the stored content, and a rename reported done was
done. Commands are those of section 4.1.3 of RFC 959 and SIZE of section 4 of RFC 3659.
Every state of the tree is recorded in a ghost log. `ReplicaSteps` defines the steps that one
replica may go through and proves what every run of steps keeps; the methods that follow the code
prove that their logs are such runs. Since a run has no memory beyond the tree, an attempt cut at
any command and followed by any other attempt is again a run, and every state of a run is one the
theorems about a fresh attempt start from (`AnyCutIsAStart`). `ReplicaHistory` puts the methods
themselves together: any attempts on a server that fails as it likes, then a repair, an audit and a
repetition, or a deletion done twice, on one that does not fail.

**Paths, names and manifests** (`Text`, `PosixPath`, `DestinationPaths`, `RecordedPaths`, `FtpNames`,
`Manifest`, `JsonText`, `Replica`). The string operations are written out; the sanitizer, the path builders of
all four layouts, the validator, the file names and the manifest's writer and verifier are functions
on them. `JsonText` shows that what is asked of a JSON codec can be had. `Replica` ties them to the protocol: it derives what the protocol asks of a replica from
conditions that can be looked at before an attempt starts.

**The backup pipeline** (`BackupLedger`, `BackupPipeline`, `RevisionChain`). A target's rows and its
transactions are functions on a ledger; `BackupPipeline.Execute` follows one run, with faults in
driver, storage and every transaction, and is one step of the ledger or none; without faults it is
known which. `Serve` runs any number of them, keeps what each one did, and is the history of those
steps. Theorems about all histories of the ledger therefore hold of the rows.

**Scheduling and reporting** (`Queries`, `Dispatcher`, `StaleRuns`, `AuditSchedule`, `AuditDispatcher`,
`AuditJob`, `MountedStorage`, `CeragonFilter`). The scheduler tick on tables that other processes may
change between transactions, the release of stale runs, the calendar of audits and its tick, the
notices of the audit job, the mounted backend, and the line filter that decides whether a Ceragon
dump has changed.

## What is abstract

SHA-256 is any injective function on contents, JSON any encoder and decoder that read every manifest
back as it was written (there is one, `FaithfulCodecExists`), NFKD
any function that is the identity on ASCII text, a zone any fixed offset, `calculate_next_run` any
function whose results are after now, and bytes are characters. The text of an FTP error is what the
code looks at: its class, whether it starts with 550, whether it says "missing" and whether it says
"denied". Clocks, UUIDs, drivers and what the primary storage delivers are parameters. Database
queries are methods that deliver what the query asks for, or raise.

## Where the code does not do what is promised of it

Each of these is proved, as an exact condition or with a witness.

- The sanitizer is idempotent except where it falls back on an id that is negative or has more than
  121 digits (`SanitizerIdempotent`, `LongIdChanges`).
- A device directory called `backups` is mistaken for the layout directory outside the nested layout:
  the stem is then derived from `devices` and the verifier refuses the manifest just written
  (`FreshStem`, `ManifestRoundTrip`, `BackupsRefused`).
- A device without a name, or an artifact of the type `manifest`, makes every manifest unacceptable
  (`ManifestRoundTrip`).
- An artifact called like another one with `.part` behind it breaks crash safety (`CrashSafeExact`);
  readable names clash so only if an artifact's own ending is `.part` (`ReplicaIsReady`).
- A stored manifest of more than 1 MiB makes every further attempt a conflict and the copy unhealthy
  (`Converges`, `CompleteIsHealthy`).
- A directory path cannot be made below a directory just made on a server that answers the listing of
  an empty directory with an error (`Mkdirs`, `EmptyListingBlocks`); deletion cannot finish on a server that answers for a
  missing directory with a temporary error (`Delete`).
- The FTP audit never reports a missing manifest as missing, only as unreadable (`TrueVerdict` in
  `FtpAudit`); the mounted audit reports it as missing.
- The mounted backend compares manifests byte for byte, so every rename of a device makes the next
  attempt at an existing copy a conflict (`RenamedManifest`, `CompleteCopy`); its deletion refuses an
  unknown name before touching anything but stops half way at an expected name that is no regular
  file (`MountedStorage.Delete`).
- A call of `execute` for a run that is not queued marks that run as an error (`Execute`).
- Recovery events alternate with failure events exactly if no target is marked stale without a
  failure on record and then succeeds (`IncidentsAlternate`, `StaleThenRecovered`). With the events of
  staleness counted as well, they alternate exactly if each event comes after an even number of slips:
  turns of the target's health that send nothing, and events that mark no turn (`EventsAlternate`,
  `SlipsExactly`, `StaleThenFailed`).
- The audit job writes its status before it queues the notice, in no transaction: the notices of a
  destination alternate exactly if each one comes after an even number of notices lost in between
  (`NoticesAlternate`), and one audit cut there is enough to break this (`CutHidesFailure`).
- A deletion cut between an artifact and the manifest leaves a manifest over an incomplete copy, and
  nothing else does; a replication that starts there keeps it until the artifact is put back
  (`MarkedIncomplete`).
- `content_changed` is not recomputed when revisions are deleted: it stays right if and only if every
  revision that is kept compares with the last one kept before it as it did with its old predecessor
  (`FlagsAfterDeletion`), which deletions do not guarantee (`FlagsGoStale`).
- A due target whose dedupe key has been used is a conflict in every tick until its row changes
  (`AfterTick`).
- Normalizing a normalized Ceragon dump changes it exactly if the final strip exposes a volatile line
  that spaces had hidden (`NormalizeTwice`, `SpaceExposes`).

## Model

| member | source | states |
|---|---|---|
| `DestinationPaths.CleanIsNormal` | netbox_config_backup/services/destination_paths.py:17-22 | whatever the name, a non-empty cleaned segment is at most 128 characters of `[A-Za-z0-9._-]`, starts and ends alphanumeric and has no dots-only piece between dashes |
| `DestinationPaths.CleanKeepsNormal` | netbox_config_backup/services/destination_paths.py:17-22 | cleaning leaves such a segment alone |
| `DestinationPaths.FixedPoints` | netbox_config_backup/services/destination_ftp.py:1342-1343 | the names that the validator's comparison accepts, those the sanitizer leaves alone, are exactly the normal segments |
| `DestinationPaths.SanitizerIdempotent` | netbox_config_backup/services/destination_paths.py:15-23 | sanitizing twice is sanitizing once if and only if the name leaves something or the id is not negative and has at most 121 digits |
| `DestinationPaths.DeviceDirectoryIsNormal` | netbox_config_backup/services/destination_paths.py:15-23 | for a database id the directory name is a normal segment, fallback included |
| `DestinationPaths.NoDoubleDash` | netbox_config_backup/services/destination_paths.py:20-21 | a normal segment has no two dashes in a row |
| `DestinationPaths.TimestampInjective` | netbox_config_backup/services/destination_paths.py:54-58 | different UTC seconds are written differently |
| `DestinationPaths.StemFromDirectory` | netbox_config_backup/services/destination_paths.py:43-51 | the stem of a directory name is the stem of the name it came from |
| `DestinationPaths.LongIdChanges` | netbox_config_backup/services/destination_paths.py:15-23 | without a name, a negative id and an id of more than 121 digits are sanitized differently the second time |
| `RecordedPaths.ValidatorExact` | netbox_config_backup/services/destination_ftp.py:1309-1368 | the validator accepts a path as a layout and segment if and only if the base is canonical, the segment a fixed point of the sanitizer, and the path one of the four shapes this revision has |
| `RecordedPaths.BuiltPath` | netbox_config_backup/services/destination_paths.py:26-93 | every builder writes the path of its shape with the sanitized name |
| `RecordedPaths.BuilderAccepted` | netbox_config_backup/services/destination_paths.py:26-93 | a built path is accepted, as its layout and the sanitized name, if and only if the base is canonical and safe |
| `RecordedPaths.CompactPathsDistinct` | netbox_config_backup/services/destination_paths.py:70-78 | two revisions never share a current path, even in the same second under the same device name |
| `FtpNames.AcceptedTail` | netbox_config_backup/services/ftp_helpers.py:62-66 | what layout detection reads from each accepted path, including where it takes a device called `backups` for the layout |
| `FtpNames.NamesSurviveRename` | netbox_config_backup/services/destination_ftp.py:839-868 | at an accepted path the file names depend on path and revision only, and the path stays accepted after a rename |
| `FtpNames.StemWhenReadable` | netbox_config_backup/services/destination_ftp.py:1371-1382 | a stem can be read from an accepted path exactly when readable names are used there, and it is not empty |
| `FtpNames.FreshStem` | netbox_config_backup/services/destination_ftp.py:1371-1382 | the stem read from a freshly built path is the stem of the device's own name if and only if the directory is not `backups` outside the nested layout |
| `FtpNames.ReadableNameSafe` | netbox_config_backup/services/ftp_helpers.py:32-84 | every readable name is one safe path component and neither the manifest's name nor its temporary name |
| `Manifest.UniqueJsonObject` | netbox_config_backup/services/ftp_helpers.py:14-22 | the object is the pairs as a map if no key repeats, and an error otherwise |
| `Manifest.CollectFiles` | netbox_config_backup/services/destination_ftp.py:846-868 | the expected artifact files, or a conflict exactly if two artifacts share a name |
| `Manifest.VerifierExact` | netbox_config_backup/services/destination_ftp.py:1154-1223 | a content is accepted if and only if it parses without repeated keys to a document equal, in Python's sense, to what would be written for some device name, and no artifact has the type `manifest` |
| `Manifest.ManifestRoundTrip` | netbox_config_backup/services/destination_ftp.py:888-929 | the written manifest is accepted on every accepted path if and only if the device has a name, no artifact has the type `manifest`, and the directory is not `backups` outside the nested layout |
| `Manifest.BackupsRefused` | netbox_config_backup/services/destination_ftp.py:1154-1223 | for a device called `backups`, outside the nested layout, the built path is accepted and the manifest written there is not |
| `Manifest.VerdictSurvivesRename` | netbox_config_backup/services/destination_ftp.py:1154-1223 | a rename changes the verdict on no content |
| `JsonText.FaithfulCodecExists` | netbox_config_backup/services/destination_ftp.py:915-929 | documents can be written so that every manifest is read back as it was, which is all that the manifest theorems ask of a codec |
| `Replica.ReplicaIsReady` | netbox_config_backup/services/destination_ftp.py:321-377 | at an accepted path with distinct names the file set is well formed exactly if no artifact is named like the manifest, and free of clashes if no name ends in `.part`; readable names are neither unless an artifact's own ending is `.part`; no artifact has the type `manifest` if any manifest is acceptable at all, and the one written is so exactly under the conditions of the round trip |
| `Replica.RenameKeepsReplica` | netbox_config_backup/services/destination_ftp.py:162-176 | after a rename the replica has the same place, names, digests and verdicts, so the same safe and complete states |
| `ReplicaSteps.CutAndResume` | netbox_config_backup/services/destination_ftp.py:441-449 | an attempt cut at any point and followed by another one is a run |
| `ReplicaSteps.RunSafe` | netbox_config_backup/services/destination_ftp.py:1226-1264 | over every run of replications and deletions without name clashes every expected final file is absent or right; wrong bytes are in temporary objects only |
| `ReplicaSteps.CrashSafeExact` | netbox_config_backup/services/destination_ftp.py:1239-1264 | all runs from proper trees keep that if and only if no expected name is the temporary name of another; otherwise an upload cut short in the empty directory breaks it |
| `ReplicaSteps.ManifestMeansComplete` | netbox_config_backup/services/destination_ftp.py:345-404 | over every run of interrupted replications a present manifest means that every artifact is there in final form |
| `ReplicaSteps.MarkedIncomplete` | netbox_config_backup/services/destination_ftp.py:543-575 | over every run of replications and deletions a manifest stands over an incomplete copy if and only if an artifact was deleted under it and neither put back, nor the manifest deleted, since |
| `ReplicaSteps.RemainsMarked` | netbox_config_backup/services/destination_ftp.py:543-575 | over every run of deletions, on honest listings, of a copy that had its manifest, a remaining artifact means that the manifest remains |
| `ReplicaSteps.RunConfined` | netbox_config_backup/services/destination_ftp.py:441-449 | no run touches a file outside the replica, nor a directory other than the replica's own and its ancestors |
| `FtpInspection.ProvableAbsent` | netbox_config_backup/services/destination_ftp.py:1452-1506 | what the ancestor walk can prove absent is absent |
| `FtpInspection.ProvableExact` | netbox_config_backup/services/destination_ftp.py:1452-1506 | on a fault-free server that answers permanent errors, the absence of a missing directory can be proved if and only if its nearest existing ancestor can list itself and no file is in the way |
| `FtpInspection.DirectoryAbsent` | netbox_config_backup/services/destination_ftp.py:1452-1506 | on honest listings a true result means that the path does not exist, whatever error replies mean; the walk ends |
| `FtpInspection.RemoteExists` | netbox_config_backup/services/destination_ftp.py:1276-1293 | with honest listings both answers are right, and without faults an answer comes exactly when the server's replies allow one |
| `FtpInspection.ReadRemote` | netbox_config_backup/services/destination_ftp.py:1042-1068 | a read that succeeds delivers the stored bytes, at most as many as allowed, and without faults it succeeds exactly then |
| `FtpInspection.ListRevisionDirectory` | netbox_config_backup/services/destination_ftp.py:1385-1449 | the exact names of an existing directory, or nothing only for a missing one |
| `FtpReplication.EnterOrMake` | netbox_config_backup/services/destination_ftp.py:973-993 | a directory is made only where nothing is, and only after its absence has been proved |
| `FtpReplication.Mkdirs` | netbox_config_backup/services/destination_ftp.py:968-993 | on normal return exactly the prefixes of the path have been added; without faults it returns if and only if the server's listings let it |
| `FtpReplication.EmptyListingBlocks` | netbox_config_backup/services/destination_ftp.py:968-993 | on a server with nothing but its root, whose listing of an empty directory is an error, no path can be made |
| `FtpReplication.Upload` | netbox_config_backup/services/destination_ftp.py:1243-1264 | the final name appears only with content read back and verified; without faults it always does |
| `FtpReplication.PutImmutable` | netbox_config_backup/services/destination_ftp.py:1226-1264 | success means that the recorded content is under the final name; an existing file is never changed; the result says whether it was written |
| `FtpReplication.PutArtifacts` | netbox_config_backup/services/destination_ftp.py:345-368 | all artifacts are final afterwards, and the count is the bytes of those that were absent |
| `FtpReplication.PutManifest` | netbox_config_backup/services/destination_ftp.py:370-404 | an acceptable manifest is there afterwards; a stored one is kept, and without faults it is accepted exactly if it fits 1 MiB |
| `FtpReplication.Replicate` | netbox_config_backup/services/destination_ftp.py:292-438 | every state on the way is a replication step; success is a complete copy and counts the absent bytes; without faults it succeeds from every safe state exactly if it can, with exactly the missing pieces added |
| `FtpReplication.Converges` | netbox_config_backup/services/destination_ftp.py:292-438 | from every safe state success keeps what was there; another attempt, under any device name, changes nothing, transfers nothing and is possible exactly if the stored manifest fits 1 MiB |
| `FtpReplication.CompleteIsIdle` | netbox_config_backup/services/destination_ftp.py:378-404 | for a complete copy an attempt adds nothing |
| `FtpReplication.AnyCutIsAStart` | netbox_config_backup/services/destination_ftp.py:292-438 | every state of every run is a tree of the kind that attempts start from |
| `FtpDeletion.RemoveEntry` | netbox_config_backup/services/destination_ftp.py:557-573 | a normal return means that the entry is gone and nothing else changed |
| `FtpDeletion.RemoveParts` | netbox_config_backup/services/destination_ftp.py:523-541 | the temporary objects are gone, all else is as before |
| `FtpDeletion.RemoveFiles` | netbox_config_backup/services/destination_ftp.py:546-575 | deleted and missing add up, deleted bytes are the recorded sizes of the files that were there, the manifest goes last |
| `FtpDeletion.RemoveDirectory` | netbox_config_backup/services/destination_ftp.py:577-606 | a normal return means that the directory is gone |
| `FtpDeletion.Delete` | netbox_config_backup/services/destination_ftp.py:441-625 | a normal return is exactly the removal of the copy with exact counts; an unknown entry means an error and no change; an absent copy is reported as such; without faults it finishes exactly if the server's replies let it see the end |
| `FtpAudit.VerifyFile` | netbox_config_backup/services/destination_ftp.py:1071-1151 | `ok` only for content with the recorded digest or, for the type `manifest`, an acceptable manifest; without faults the verdict is the file's true state |
| `FtpAudit.RecordReports` | netbox_config_backup/services/destination_ftp.py:181-215 | counting one more finding keeps the summary a report of all findings |
| `FtpAudit.Conserved` | netbox_config_backup/services/destination_ftp.py:137-153 | checked files are the verified ones and the four kinds of problems; the issue list is as long as there are problems, up to the limit |
| `FtpAudit.NoneBad` | netbox_config_backup/services/destination_ftp.py:217-249 | no failed replica if and only if no problem |
| `FtpAudit.AuditReplica` | netbox_config_backup/services/destination_ftp.py:178-220 | one finding for each expected file, and the replica counted as healthy or failed |
| `FtpAudit.Reconcile` | netbox_config_backup/services/destination_ftp.py:94-249 | a completed audit reports exactly the findings on every expected file, succeeds if and only if no replica failed, and changes nothing |
| `FtpAudit.CompleteIsHealthy` | netbox_config_backup/services/destination_ftp.py:1071-1151 | the true verdicts on a complete copy are all fine if and only if its manifest fits 1 MiB |
| `ReplicaHistory.TryAll` | netbox_config_backup/services/destination_ftp.py:292-625 | over any series of replications and deletions, each failing wherever it likes, every state is safe, a proper tree and free of obstacles, and has no foreign entries if there were none |
| `ReplicaHistory.Repair` | netbox_config_backup/services/destination_ftp.py:94-438 | from any such state a fault-free attempt succeeds exactly if it can and transfers the absent bytes; then the audit finds the copy healthy and a repetition after any rename transfers and changes nothing, both exactly if the manifest fits 1 MiB |
| `ReplicaHistory.Retire` | netbox_config_backup/services/destination_ftp.py:441-625 | from any such state without foreign entries a fault-free deletion finishes exactly if the server's replies let it; then exactly the copy is gone, and deleting again reports it absent and changes nothing |
| `MountedStorage.PutImmutable` | netbox_config_backup/services/destination_mounted.py:505-530 | a new name gets the content, the same content is left alone, anything else is a conflict |
| `MountedStorage.Replicate` | netbox_config_backup/services/destination_mounted.py:98-195 | it succeeds if and only if nothing different is in its way; what was there is kept, and the bytes are those that were absent |
| `MountedStorage.CompleteCopy` | netbox_config_backup/services/destination_mounted.py:166-178 | over a complete copy an attempt is idle for the same manifest and a conflict for every other |
| `MountedStorage.RenamedManifest` | netbox_config_backup/services/destination_ftp.py:888-929 | the manifests for two device names are the same bytes if and only if the names are the same |
| `MountedStorage.Delete` | netbox_config_backup/services/destination_mounted.py:326-403 | it returns if and only if only expected regular files are there; then everything is gone and counted; what each kind of refusal leaves behind |
| `MountedStorage.ManifestOutlives` | netbox_config_backup/services/destination_mounted.py:369-382 | at every point of the deletion a remaining artifact means that the manifest remains |
| `MountedStorage.VerifyState` | netbox_config_backup/services/destination_mounted.py:533-585 | the verdict is the file's true state, or unreadable |
| `MountedStorage.AuditCopy` | netbox_config_backup/services/destination_mounted.py:268-309 | one finding for each expected file, and the copy counted as healthy or failed |
| `MountedStorage.Reconcile` | netbox_config_backup/services/destination_mounted.py:198-323 | the same conservation as for FTP: the summary reports exactly the findings and succeeds if and only if no copy failed |
| `BackupLedger.NewestIsLast` | netbox_config_backup/services/django_repository.py:186-191 | with increasing creation times the newest revision is the last one committed |
| `BackupLedger.CollectKeepsLinks` | netbox_config_backup/services/django_repository.py:203-298 | both commits keep the revisions one chain that the target points to the end of |
| `BackupLedger.ChainKept` | netbox_config_backup/services/django_repository.py:203-298 | over every history each revision points to its predecessor, the target to the newest, `content_changed` says exactly whether a revision differs, and the newest revision is the latest successful collection |
| `BackupLedger.ChangedOnlyHistory` | netbox_config_backup/services/backup.py:90-108 | in `changed_only` mode the revisions are the successful collections without adjacent repetitions |
| `BackupLedger.EverySuccessHistory` | netbox_config_backup/services/backup.py:110-160 | in the other mode they are all successful collections |
| `BackupLedger.FailuresCounted` | netbox_config_backup/services/django_repository.py:312-344 | `consecutive_failures` is always the length of the trailing block of failures |
| `BackupLedger.IncidentsAlternate` | netbox_config_backup/services/django_repository.py:312-388 | with health refreshes and schedule changes in between, failure and recovery events alternate, two for each finished incident and one for a current one, if and only if no stale target recovers |
| `BackupLedger.StaleThenRecovered` | netbox_config_backup/services/django_repository.py:203-235 | a target marked stale that then succeeds sends a recovery without a failure |
| `BackupLedger.EventsAlternate` | netbox_config_backup/services/health.py:97-141 | with every failure reported or only the first, all events of a target alternate, failure or staleness and then recovery, if and only if each one comes after an even number of slips |
| `BackupLedger.SlipsExactly` | netbox_config_backup/services/health.py:50-141 | which calls slip, by the row before them: a failure of a stale target, a repeated failure that is reported, staleness that ends without a success, and staleness whose event is lost |
| `BackupLedger.StaleThenFailed` | netbox_config_backup/services/health.py:126-140 | a stale target that fails is reported twice before it can recover |
| `BackupLedger.EveryFailureReported` | netbox_config_backup/services/django_repository.py:345-360 | with notifications for every failure there are as many failure events as failures |
| `BackupPipeline.Repository.MarkRunning` | netbox_config_backup/services/django_repository.py:166-183 | only a queued run starts, and nothing else changes |
| `BackupPipeline.Repository.GetLatestRevision` | netbox_config_backup/services/django_repository.py:185-201 | the normalized hash of the newest revision and the raw hash of its first primary artifact |
| `BackupPipeline.Repository.CommitUnchanged` | netbox_config_backup/services/django_repository.py:203-235 | the run refers to the newest revision and the target's rows take the ledger's step, or nothing changes |
| `BackupPipeline.Repository.CommitRevision` | netbox_config_backup/services/django_repository.py:237-298 | the new revision follows the newest one and its storage keys are new to the table, or nothing changes |
| `BackupPipeline.Repository.MarkFailed` | netbox_config_backup/services/django_repository.py:312-360 | the failure is recorded whatever the run's status was, or nothing changes |
| `BackupPipeline.PrepareArtifacts` | netbox_config_backup/services/backup.py:196-231 | succeeds if and only if there are artifacts of distinct types, one primary, all valid and normalized to something; otherwise the error is that of the set, or of the first artifact that cannot be used |
| `BackupPipeline.StoreArtifacts` | netbox_config_backup/services/backup.py:110-141 | only keys under the new revision's prefix change, every one of them is on the rollback list, and success adds one object for each artifact |
| `BackupPipeline.RollbackStorage` | netbox_config_backup/services/backup.py:233-239 | nothing but the listed keys changes, and all of them are gone if every deletion worked; an error that is no storage error ends it with something left |
| `BackupPipeline.RolledBack` | netbox_config_backup/services/backup.py:161-194 | after a rollback whose deletions worked the storage is what it was before the run |
| `BackupPipeline.StoreAndCommit` | netbox_config_backup/services/backup.py:110-153 | the revision's objects are stored and the revision committed, or the rows are unchanged and every stored key is on the rollback list |
| `BackupPipeline.Conclude` | netbox_config_backup/services/backup.py:87-160 | the end of a successful run is the ledger's step, with exactly the revision's objects stored and the result and the run's row as the hashes decide |
| `BackupPipeline.Execute` | netbox_config_backup/services/backup.py:52-194 | with faults anywhere: every committed artifact row has its object with the recorded hash; the target's rows take one step of the ledger or none; a failed call restores the storage if its deletions work; the result and the run's final row; other runs untouched; without faults of storage and database it succeeds if and only if the run is queued, its context complete, the driver delivers sound artifacts, the newest revision has a primary one and what is to be stored has distinct names |
| `BackupPipeline.Serve` | netbox_config_backup/services/backup.py:52-194 | over any sequence of calls each one did what `Execute` promises, from one moment to the next; the rows are those of the history of these steps, whose successes are the jobs that returned success, in order and with the hashes their plans deliver; storage and database agree, the revisions form a chain, and in one mode they are those successes |
| `RevisionChain.OrderIsUnique` | netbox_config_backup/services/revision_chain.py:7-10 | the order of the kept revisions depends only on which they are |
| `RevisionChain.LinkAndKeep` | netbox_config_backup/services/revision_chain.py:11-21 | every link is right afterwards, an object is saved if and only if its link was wrong, and nothing if all were right |
| `RevisionChain.Relink` | netbox_config_backup/services/revision_chain.py:4-21 | whatever the order of the input, the kept revisions form the chain the ledger says, the deleted ones are left alone, a second call saves nothing |
| `RevisionChain.KeptExactly` | netbox_config_backup/services/revision_chain.py:7-10 | exactly the revisions not deleted are kept |
| `RevisionChain.ForgetKeepsChain` | netbox_config_backup/services/revision_chain.py:4-21 | deleting any subset leaves a chain |
| `RevisionChain.ChainThroughDeletions` | netbox_config_backup/services/revision_chain.py:4-21 | over every history of runs and deletions the revisions are one chain and the target points to its end |
| `RevisionChain.FlagsAfterDeletion` | netbox_config_backup/services/revision_chain.py:12-17 | a deletion leaves `content_changed` right if and only if every kept revision compares with the last one kept before it as it did with its old predecessor |
| `RevisionChain.FlagsGoStale` | netbox_config_backup/services/revision_chain.py:12-17 | there is a history of collections after which every `content_changed` is right, and a deletion that leaves one wrong |
| `Dispatcher.Database.EnqueueBackupRun` | netbox_config_backup/services/queueing.py:10-35 | the run is created with its job, or nothing is; a conflict exactly if a unique constraint of the table forbids it; the constraints are kept |
| `Dispatcher.KeysApart` | netbox_config_backup/services/dispatcher.py:120-125 | the dedupe key tells retries from scheduled runs and due times from each other, and nothing else |
| `Dispatcher.DispatchOne` | netbox_config_backup/services/dispatcher.py:100-142 | with other processes writing between the transactions: `next_run_at` moves past now if and only if a run was created with it; otherwise the row is as it was |
| `Dispatcher.InitializeSchedules` | netbox_config_backup/services/dispatcher.py:50-65 | inactive targets lose their time, active ones without one get theirs, all others keep theirs; it raises unless every rule that is asked delivers a time |
| `Dispatcher.DispatchDueTargets` | netbox_config_backup/services/dispatcher.py:68-143 | at most one active run for each target and one for each dedupe key; due is the sum of the outcomes; undisturbed, exactly the candidates that are free and whose key is new are served, earliest first |
| `Dispatcher.AfterTick` | netbox_config_backup/services/dispatcher.py:100-142 | a target that was served is busy and not due again; every other one keeps its row and its fate |
| `Dispatcher.TickSettles` | netbox_config_backup/services/dispatcher.py:68-143 | a tick whose limit leaves nobody out leaves no due target that could be served |
| `Dispatcher.SettledTick` | netbox_config_backup/services/dispatcher.py:68-143 | a repeated tick then queues nothing and changes nothing |
| `Dispatcher.InitializedStays` | netbox_config_backup/services/dispatcher.py:50-65 | after a tick another initialization changes nothing |
| `Dispatcher.TickTwice` | netbox_config_backup/services/dispatcher.py:50-143 | of two undisturbed ticks at one time, the first below its limit, the second queues nothing and leaves both tables as the first has left them |
| `StaleRuns.ReconcileStaleRuns` | netbox_config_backup/services/dispatcher.py:146-187 | exactly the runs that no worker may still execute become errors, the count is theirs, and each of their targets fails exactly once |
| `StaleRuns.RoomAgain` | netbox_config_backup/services/dispatcher.py:146-187 | exactly the targets of released runs are free again, and the constraints still hold |
| `AuditSchedule.NextAuditIsLeast` | netbox_config_backup/services/ftp_audit_scheduling.py:16-54 | the next audit is after the reference, at the configured time and weekday, at most a day or a week away, and no earlier instant qualifies |
| `AuditDispatcher.InitializeSchedules` | netbox_config_backup/services/ftp_audit_dispatcher.py:38-61 | destinations without audits lose their time, others without one get the next slot |
| `AuditDispatcher.DispatchOne` | netbox_config_backup/services/ftp_audit_dispatcher.py:87-133 | the slot moves past now and an audit job is active, unless the transaction was rolled back |
| `AuditDispatcher.DispatchDueAudits` | netbox_config_backup/services/ftp_audit_dispatcher.py:64-134 | the earliest due destinations up to the limit are dealt with and counted; all but the rolled-back ones have moved past now and have a job |
| `AuditDispatcher.NothingElseDue` | netbox_config_backup/services/ftp_audit_dispatcher.py:64-134 | if the limit left nobody out, a destination is due afterwards if and only if its transaction was rolled back |
| `AuditJob.Destination.Run` | netbox_config_backup/jobs.py:230-310 | the status and the problem count an audit leaves, also when it is cut before its notice, and a notice exactly if it was not cut and the status went from good to bad or back |
| `AuditJob.NoticesCounted` | netbox_config_backup/jobs.py:230-310 | over every series of audits, some cut or crashed, sent and lost notices together are two for each finished incident and one for a current one, and the status is bad exactly during an incident |
| `AuditJob.NoticesAlternate` | netbox_config_backup/jobs.py:230-310 | the notices alternate, starting with a failure, if and only if each one sent comes after an even number of lost ones |
| `AuditJob.CutHidesFailure` | netbox_config_backup/jobs.py:241-263 | a failing audit cut before its notice and then a clean one send a recovery alone |
| `AuditJob.StatusMatchesFindings` | netbox_config_backup/jobs.py:265-287 | after a completed audit, cut or not, the recorded problem count is the number of findings that are not fine, and the status is sound exactly if there is none |
| `CeragonFilter.FilterLines` | netbox_config_backup/drivers/native_exports.py:281-295 | the loop computes the filter |
| `CeragonFilter.NormalizeDump` | netbox_config_backup/drivers/native_exports.py:277-296 | the whole of normalize computes the filter on the trimmed lines, joined and stripped |
| `CeragonFilter.KeptExactly` | netbox_config_backup/drivers/native_exports.py:283-295 | a line is kept if and only if it is no volatile assignment, no volatile table's heading and not between such a heading and the next closing line |
| `CeragonFilter.FilterIdempotent` | netbox_config_backup/drivers/native_exports.py:283-295 | on lines the filter is idempotent |
| `CeragonFilter.VolatileLineIgnored` | netbox_config_backup/drivers/native_exports.py:286-287 | a volatile assignment inserted anywhere changes nothing |
| `CeragonFilter.TableIgnored` | netbox_config_backup/drivers/native_exports.py:288-294 | a volatile table that stands outside any other changes nothing, whatever its rows |
| `CeragonFilter.RowsIgnored` | netbox_config_backup/drivers/native_exports.py:288-294 | the rows of a volatile table make no difference wherever it stands, even inside another one |
| `CeragonFilter.HeadingsAreStarts` | netbox_config_backup/drivers/native_exports.py:192-201 | the table names are not taken for the assignments that begin with them |
| `CeragonFilter.ClosingIsEnd` | netbox_config_backup/drivers/native_exports.py:292-293 | the closing line is neither an assignment nor a heading |
| `CeragonFilter.SameEssence` | netbox_config_backup/drivers/native_exports.py:277-296 | two dumps normalize alike if and only if their essential lines are the same |
| `CeragonFilter.NormalizeTwice` | netbox_config_backup/drivers/native_exports.py:296 | normalizing twice is normalizing once if and only if the first kept line that is not blank is no volatile line behind spaces |
| `CeragonFilter.SpaceExposes` | netbox_config_backup/drivers/native_exports.py:284-296 | one space before a volatile assignment is enough to make the two differ |

## Left out

- The SFTP backend: it has the shape of the FTP one with weaker checks.
- Mounted storage under faults: a crash in the middle of a write to a final name, symbolic links, mount roots and I/O errors other than in audits.
- MountedStorage.PutImmutable: a write that fails half way and the check after writing are not modelled.
- MountedStorage.Delete: file system errors and symbolic links are not modelled; regular files, other entries and the order of steps are.
- MountedStorage.Replicate: starts from contents that passed the checks on the primary copy; a failed check would end the loop where a conflict does.
- MountedStorage.VerifyState: whether a file system error occurs is left open, so unreadable is always a possible verdict.
- Recovery packages, the destination's connection trial, retention and the deletion of targets.
- FTP connections, login, and the texts of error messages beyond the four facts the code reads from them.
- FtpDeletion.RemoveParts: the order in which temporary objects are removed is left open; the code sorts them by name.
- A replication of a revision that has an artifact of the type `manifest`: the code fails with a `KeyError` when it comes to that artifact.
- RecordedPaths.ValidatorExact: a creation year has four digits, as dates written with `strftime` have from the year 1000 on.
- AuditSchedule.NextAuditIsLeast: daylight saving changes are not modelled; the code compares wall-clock values, so around a fold the next slot can lie before now.
- A commit whose acknowledgement is lost: a transaction either happened and returned or raised and did nothing.
- BackupPipeline.Repository.CommitUnchanged: the timestamps of the target, a next run time where there was none, and the queueing of replicas on commit are not modelled.
- BackupPipeline.Repository.CommitRevision: the timestamps of the target, a next run time where there was none, and the queueing of replicas on commit are not modelled.
- BackupPipeline.Repository.MarkFailed: the timestamps and the next run time it computes are not modelled; `Dispatcher` has next run times.
- Dispatcher.InitializeSchedules: runs as one step; other processes are modelled between and inside the transactions of the dispatch loop.
- StaleRuns.ReconcileStaleRuns: nobody else writes meanwhile, and the query that selects stale runs is a parameter; `mark_failed` would also overwrite a run that finished after the query.
- AuditDispatcher.InitializeSchedules: nobody else writes the destination table meanwhile.
- AuditDispatcher.DispatchDueAudits: nobody else writes the destination table meanwhile, so the re-check of a locked row always passes.
- CeragonFilter.NormalizeDump: covers configuration dumps; every other artifact is returned as it is.
- Delivery of events: they are queued for delivery after the commit, and may still be lost then, or be switched off by a control; nothing here says that a queued event arrives.
- Views, forms, serializers, registries, credentials, drivers' sessions and the queue itself.
