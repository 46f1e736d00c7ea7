# BackerUp backup lifecycle engine, in Dafny

BackerUp backs up a set of source paths into one or more target folders.
Each job's backups are grouped into **packages** named `package_<job id>_<n>`.
A package opens with a full copy in its `fullBackup` folder. Differential or
incremental runs then add `snapshot_<k>` folders holding only the files
written since a baseline. A per-job metadata record (`JobsMetadata`) tracks
the packages (oldest first) with their snapshot counts, the package counter,
the last package and snapshot timestamps, and the last method used.
Retention keeps the newest `Count` packages and caps each package at `Size`
snapshots. A scheduler decides from a cron expression whether a job is due.

This project models that engine and proves its bookkeeping properties:

- `wrappers.dfy`: `Option`.
- `model.dfy`: jobs, retention, methods, package entries, and `Time` as
  DateTime ticks (0 to `DateTime.MaxValue`). It also has .NET's
  `string.IsNullOrWhiteSpace`.
- `decimal.dfy`: decimal formatting of integers, which package and snapshot
  names use, with its parsing round trip.
- `paths.dfy`: the `System.IO.Path` operations used in naming folders, for
  Unix paths.
- `job_state.dfy`: the metadata record. `State` is the record as a value.
  The class `JobsMetadata` holds the same fields and updates them in place.
  Each method's contract says its new state is a function of the old one,
  and the lemmas about those functions carry the properties.
- `backup.dfy`: the full run. It creates a package, copies the sources and
  enforces retention.
- `backup_differential.dfy`: the snapshot run. Change detection, the fallbacks
  to a full run, the snapshot cap, snapshot folders and destinations are all
  here. It is parametrised by its baseline. The package start gives the
  differential strategy. The previous snapshot gives the incremental one.
- `dispatch.dfy`: the service that picks the strategy from the job's method.
- `timing.dfy`: whether a job is due, and when it next occurs. The logic is
  generic over the cron engine (Cronos or Quartz.NET), which stays abstract.

Runs return the filesystem operations of a run in which every operation
succeeds (`Effect`) alongside the new record. The record never depends on
whether those operations succeed, just as the source swallows per-target I/O
errors.

The clocks are parameters:
- `nowUtc` stands for the run's `DateTime.UtcNow` reads, collapsed into one
  instant.
- `localNow` stands for the `DateTime.Now` read when a package is created
  (`Backup.cs:73`). It becomes the entry's `CreatedUtc`.

The filesystem the snapshot run inspects is a function from path to node.
A node is a directory with its recursive file listing, a file with its
last-write time, or nothing. A listing that throws is `None`.

## Model

| member | source | states |
|---|---|---|
| Decimal.ParseNatToString | BackerUp_Client/Models/Backup.cs:72 | reading back the decimal digits written for a counter gives the counter |
| Decimal.ParseIntToString | BackerUp_Client/Models/Backup.cs:72 | the same round trip for any integer, negative ids included |
| Decimal.IntToStringInjective | BackerUp_Client/Models/Backup.cs:72 | two integers are written alike exactly when they are equal |
| Paths.FileNameExact | BackerUp_Client/Models/Backup.cs:54 | the file name is a suffix of the path without separators, and is preceded by a separator whenever it is shorter than the path |
| Paths.TrimTrailingSeparatorsExact | BackerUp_Client/Models/Backup.cs:54 | the result is a prefix of the path that does not end in a separator, and only separators were removed |
| Paths.LastSeparatorBeforeExact | BackerUp_Client/Models/Backup.cs:54 | the last separator before a position is found exactly, and none exists iff that prefix has no separator |
| Paths.TrimmedLengthExact | BackerUp_Client/Models/Backup.cs:54 | the trimmed length drops exactly the trailing separators of the prefix |
| Paths.SeparatorRunEndExact | BackerUp_Client/Models/BackupDifferential.cs:67 | the run of separators found after the root holds only separators and ends at a non-separator or at the end of the path |
| Paths.RelativePathAfterSeparators | BackerUp_Client/Models/BackupDifferential.cs:67 | a name below a root is found again relative to it however many separators come between them, as `GetRelativePath` collapses them |
| Paths.RelativePathOfCombine | BackerUp_Client/Models/BackupDifferential.cs:67 | a relative name joined under a folder is found again relative to that folder |
| JobState.LastIndexNamedExact | src/BackerUp.Core/JobsMetadata.cs:74 | no index iff no entry has the name; otherwise the index of an entry with that name after which none has it |
| JobState.CountedSameNames | src/BackerUp.Core/JobsMetadata.cs:73-79 | counting a snapshot renames no entry and leaves the list length and the counter alone |
| JobState.CountedEmpty | src/BackerUp.Core/JobsMetadata.cs:74-75 | counting a snapshot on an empty package list changes nothing |
| JobState.CountedBumpsOne | src/BackerUp.Core/JobsMetadata.cs:73-79 | on a non-empty list the target is the last entry with the name, or the last entry if none has it; exactly that entry's count rises by one; the list length and every other entry stay; only the snapshot timestamp changes besides, to the given time |
| JobState.PurgeWithinLimit | src/BackerUp.Core/JobsMetadata.cs:89-96 | with keep <= 0 or no more entries than keep, nothing is removed and the record is unchanged |
| JobState.PurgeKeepsNewest | src/BackerUp.Core/JobsMetadata.cs:98-100 | with more entries than keep > 0, exactly keep survive and they are the newest, in order |
| JobState.PurgeLosesNothing | src/BackerUp.Core/JobsMetadata.cs:99-101 | the removed names followed by the surviving names are the old names, in order |
| JobState.PurgeBounds | src/BackerUp.Core/JobsMetadata.cs:89-101 | a positive keep bounds the survivors; the list never grows; nothing but the list changes |
| JobState.JobsMetadata.constructor | src/BackerUp.Core/JobsMetadata.cs:63 | a new record has counter 0, no timestamps, no packages and the job's method |
| JobState.JobsMetadata.Loaded | src/BackerUp.Core/JobsMetadata.cs:57-61 | a record loaded from storage holds exactly the stored values |
| JobState.JobsMetadata.AddPackage | src/BackerUp.Core/JobsMetadata.cs:68-71 | exactly one entry with the name, the time and no snapshots is appended; the package timestamp is the time; nothing else changes |
| JobState.JobsMetadata.IncrementSnapshotCount | src/BackerUp.Core/JobsMetadata.cs:73-79 | the new record is the counted one; an empty list leaves the object unchanged |
| JobState.JobsMetadata.GetCurrentPackage | src/BackerUp.Core/JobsMetadata.cs:81-87 | none iff there are no packages, otherwise the last entry |
| JobState.JobsMetadata.PurgeOldPackages | src/BackerUp.Core/JobsMetadata.cs:89-102 | returns the evicted prefix's names and keeps the rest; returned names followed by the remaining names are the old names |
| Backup.IndexOfPackageName | BackerUp_Client/Models/Backup.cs:72 | the counter a package name was made from can be read back from the name |
| Backup.PackageNameInjective | BackerUp_Client/Models/Backup.cs:72 | one job's package names are equal exactly when their counters are |
| Backup.SourceFolderIsSegment | BackerUp_Client/Models/Backup.cs:54 | a source's folder name holds no separator |
| Backup.FullRunNeedsJob | BackerUp_Client/Models/Backup.cs:32-34 | without a job, a source list or a target list the record is unchanged and no file is touched |
| Backup.FullRunOpensPackage | BackerUp_Client/Models/Backup.cs:39-65 | before retention, a full run appends package_<id>_<old counter> created at the local clock with one snapshot, raises the counter by one, stamps both timestamps with the run's clock and records Full |
| Backup.FullRunRetention | BackerUp_Client/Models/Backup.cs:30-68 | after retention as well: with no retention or Count <= 0 nothing is trimmed; with Count > 0 the list holds min(old + 1, Count) entries, the newest ones in order, and the new package is last |
| Backup.NewPackageNameIsFresh | BackerUp_Client/Models/Backup.cs:71-85 | in a well-named record the next package name is used by no entry |
| Backup.WellNamedDistinct | BackerUp_Client/Models/Backup.cs:71-72 | a well-named record has no two entries with the same name |
| Backup.CreatedWellNamed | src/BackerUp.Core/JobsMetadata.cs:63 | a new record is well named |
| Backup.PurgeKeepsWellNamed | BackerUp_Client/Models/Backup.cs:117 | purging keeps a record well named |
| Backup.SameNamesWellNamed | BackerUp_Client/Models/Backup.cs:71-72 | being well named depends only on the names, in order, and the counter |
| Backup.NewPackageKeepsWellNamed | BackerUp_Client/Models/Backup.cs:70-85 | appending the package named for the counter and moving the counter past it keeps the record well named |
| Backup.FullRunKeepsWellNamed | BackerUp_Client/Models/Backup.cs:70-88 | a full run keeps a record well named: names embed their counter, counters increase along the list and stay below the next counter |
| Backup.SourceCopiesExact | BackerUp_Client/Models/Backup.cs:49-55 | a copy is planned exactly for each non-blank source, into the data folder under the source's last segment |
| Backup.DeletionsExact | BackerUp_Client/Models/Backup.cs:117-127 | a deletion is planned exactly for each evicted package under each target |
| Backup.CreateNewPackageForJob | BackerUp_Client/Models/Backup.cs:70-88 | the record gains the new package and counter, stamped with the local clock; one package folder per target |
| Backup.EnforceRetention | BackerUp_Client/Models/Backup.cs:107-130 | the record is the retained one; the evicted packages are deleted under every target |
| Backup.CopyIntoTargets | BackerUp_Client/Models/Backup.cs:45-60 | the loop plans the data folder and the source copies for every target, in order |
| Backup.CopySources | BackerUp_Client/Models/Backup.cs:49-56 | the loop plans the copies of the non-blank sources, in order |
| Backup.PerformBackup | BackerUp_Client/Models/Backup.cs:30-68 | the record after the run is the full run's and the operations are the full run's plan |
| BackupDifferential.Decide | BackerUp_Client/Models/BackupDifferential.cs:9-58 | a snapshot is decided only for a runnable job with a current package and a non-empty change set |
| BackupDifferential.TopFolderIsSegment | BackerUp_Client/Models/BackupDifferential.cs:69-76 | the top folder is one non-empty path segment |
| BackupDifferential.SnapshotRunNeedsJob | BackerUp_Client/Models/BackupDifferential.cs:9-11 | without a job, a source list or a target list the record is unchanged and no file is touched |
| BackupDifferential.NoBaselineFallsBackToFull | BackerUp_Client/Models/BackupDifferential.cs:15-27 | with no package or no baseline timestamp the run is a full run, record and operations alike, and records Full |
| BackupDifferential.NoChangesNoOp | BackerUp_Client/Models/BackupDifferential.cs:46 | with no file written after the baseline the record is unchanged and no file is touched |
| BackupDifferential.BelowCapTakesSnapshot | BackerUp_Client/Models/BackupDifferential.cs:46-92 | with a runnable job, a current package, a baseline, a non-empty change set and no cap reached (none set, or a count below it), the run takes a snapshot of exactly those changes and the record becomes the counted one after retention |
| BackupDifferential.ListingFailureNoOp | BackerUp_Client/Models/BackupDifferential.cs:30-34 | a source listing that throws ends the run before any bookkeeping: the record stays as it was and no file operation is planned |
| BackupDifferential.CapFallsBackToFull | BackerUp_Client/Models/BackupDifferential.cs:51-58 | when the current package has reached a positive snapshot cap, the run is a full run that opens a new package |
| BackupDifferential.SnapshotTaken | BackerUp_Client/Models/BackupDifferential.cs:60-92 | a run that takes a snapshot leaves the counted and retained record, and plans the snapshot copies of the current package followed by the deletions |
| BackupDifferential.CountedBumpsLast | BackerUp_Client/Models/BackupDifferential.cs:87-89 | counting a snapshot raises only the last entry's count by one, keeps the counter and the package timestamp, stamps the snapshot time and records the strategy |
| BackupDifferential.SnapshotCountsOne | BackerUp_Client/Models/BackupDifferential.cs:87-92 | a snapshot raises the current count by one; the list length, every other entry, the counter and the package timestamp stay; the snapshot timestamp is the run's clock; the method is the strategy's; retention trims only a list already over Count |
| BackupDifferential.BaselineAfterSnapshot | BackerUp_Client/Models/BackupDifferential.cs:22-24 | after a snapshot the differential baseline (package start) is unchanged, while the incremental baseline becomes the run's clock |
| BackupDifferential.FirstSnapshotIsOne | BackerUp_Client/Models/BackupDifferential.cs:51-62 | after a full run the current count is 1, so the next snapshot folder is snapshot_1 |
| BackupDifferential.SnapshotWritesEveryChange | BackerUp_Client/Models/BackupDifferential.cs:60-81 | a snapshot creates snapshot_<count before the run> of the current package under every target and copies every changed file into it |
| BackupDifferential.FullRunKeepsCap | BackerUp_Client/Models/BackupDifferential.cs:52-58 | if every package is within a positive cap before a full run, every package is within it after |
| BackupDifferential.CountedKeepsCap | BackerUp_Client/Models/BackupDifferential.cs:51-54 | counting a snapshot in a package still below the cap keeps every package within it |
| BackupDifferential.PurgeKeepsCap | BackerUp_Client/Models/BackupDifferential.cs:92 | dropping the oldest packages keeps the rest within the cap |
| BackupDifferential.SnapshotRunKeepsCap | BackerUp_Client/Models/BackupDifferential.cs:51-92 | the same for a snapshot run, whichever way it goes |
| BackupDifferential.CountedKeepsWellNamed | BackerUp_Client/Models/BackupDifferential.cs:87 | counting a snapshot keeps the record well named |
| BackupDifferential.TakenKeepsWellNamed | BackerUp_Client/Models/BackupDifferential.cs:87-92 | a snapshot, retention included, keeps the record well named |
| BackupDifferential.SnapshotRunKeepsWellNamed | BackerUp_Client/Models/BackupDifferential.cs:87-92 | a snapshot run keeps a record well named |
| BackupDifferential.NewerFilesExact | BackerUp_Client/Models/BackupDifferential.cs:33-38 | a directory contributes exactly its files written strictly after the baseline |
| BackupDifferential.ChangedFilesExact | BackerUp_Client/Models/BackupDifferential.cs:29-44 | a file is in the change set iff a source reports it: written strictly after the baseline; blank sources report nothing |
| BackupDifferential.ChangedFilesAbort | BackerUp_Client/Models/BackupDifferential.cs:34 | a listing that fails for any source aborts the whole scan |
| BackupDifferential.SnapshotCopiesExact | BackerUp_Client/Models/BackupDifferential.cs:60-81 | the snapshot's operations are exactly each target's snapshot folder and each change copied into it |
| BackupDifferential.DestinationKeepsStructure | BackerUp_Client/Models/BackupDifferential.cs:67-78 | a file found below a directory source lands under the source's folder at its path relative to the source |
| BackupDifferential.DetectChanges | BackerUp_Client/Models/BackupDifferential.cs:29-44 | the scanning loop computes the change set |
| BackupDifferential.ScanSource | BackerUp_Client/Models/BackupDifferential.cs:30-43 | one source's scan computes its changes |
| BackupDifferential.CopyIntoSnapshot | BackerUp_Client/Models/BackupDifferential.cs:60-85 | the copy loop plans the snapshot's operations |
| BackupDifferential.DoubledSeparatorRoot | BackerUp_Client/Models/BackupDifferential.cs:39-42 | a newer file source `d//f.txt` is reported as one change with the root `d` |
| BackupDifferential.DestinationAfterSeparators | BackerUp_Client/Models/BackupDifferential.cs:67-78 | a change below its root lands at `<snapDir>/<top folder>/<name>` however many separators separate the name from the root, so `d//f.txt` under `d` goes to `<snapDir>/d/f.txt` |
| BackupDifferential.CopyChanges | BackerUp_Client/Models/BackupDifferential.cs:65-81 | the inner loop plans one copy per change, at the `Destination` of that change |
| BackupDifferential.RecordSnapshot | BackerUp_Client/Models/BackupDifferential.cs:60-92 | given the current package, the record becomes the counted and retained one; the operations are the snapshot copies into that package at its pre-increment count, then the deletions |
| BackupDifferential.PerformBackup | BackerUp_Client/Models/BackupDifferential.cs:8-28 | the record after the run is the snapshot run's and the operations are its plan |
| BackupDifferential.SnapshotSince | BackerUp_Client/Models/BackupDifferential.cs:29-46 | once a current package and a baseline time exist, the rest of the run still yields the snapshot run's record and plan |
| BackupDifferential.SnapshotOrFallBack | BackerUp_Client/Models/BackupDifferential.cs:48-92 | with changes found, the record and plan are the full run's when the current package is at a positive cap, the snapshot's otherwise |
| BackupService.DispatchRecordsMethod | src/BackerUp.Client/Services/BackupService.cs:42-47 | a run that changes the record needs a runnable job; it records Full or the job's own method (always Full for a full job) and stamps the snapshot time |
| BackupService.StampedBySnapshotRun | BackerUp_Client/Models/BackupDifferential.cs:87-89 | a snapshot run that changes the record stamps the run's clock and records Full or its strategy |
| BackupService.DispatchKeepsWellNamed | src/BackerUp.Client/Services/BackupService.cs:42-50 | whichever strategy runs, the record stays well named |
| BackupService.DispatchKeepsCap | src/BackerUp.Client/Services/BackupService.cs:42-50 | whichever strategy runs, packages stay within a positive snapshot cap |
| BackupService.PerformBackupIfDue | src/BackerUp.Client/Services/BackupService.cs:36-54 | the record and the operations are those of the strategy the method selects; no job changes nothing |
| Timing.IsJobDue | src/BackerUp.Client/Services/CronTimingService.cs:7-35 | no job is never due; a null, empty or whitespace timing is always due |
| Timing.NextOccurrence | src/BackerUp.Client/Services/CronTimingService.cs:37-49 | no job or a blank timing has no next occurrence |
| Timing.UnparsableNeverDue | src/BackerUp.Client/Services/TimingService.cs:18-35 | a timing that does not parse is not due and has no next occurrence |
| Timing.MinValueIsNeverRun | src/BackerUp.Client/Services/TimingService.cs:22-29 | a last run at DateTime.MinValue is due-checked like no run at all, but the next occurrence still searches from it |
| Timing.StrictNeverEarlier | src/BackerUp.Client/Services/TimingService.cs:31 | an engine answering strictly after the start never answers before it |
| Timing.DueStaysDue | src/BackerUp.Client/Services/CronTimingService.cs:27-31 | once a job that has run is due, it stays due at every later instant |
| Timing.JustRanNotDue | src/BackerUp.Client/Services/TimingService.cs:27-32 | with a last run stamped now, a job is due now iff its timing is blank |
| Timing.RunThenNotDue | src/BackerUp.Client/Services/CronTimingService.cs:21-31 | after any run that changed the record, the job is not due again at that instant unless its timing is blank |
| Timing.NextOccurrenceIsLater | src/BackerUp.Client/Services/TimingService.cs:44-48 | the next occurrence lies strictly after the last run, or after now for a job never run |
| Timing.DueAgreesWithNextOccurrence | src/BackerUp.Client/Services/CronTimingService.cs:21-45 | for a job with a timing that has run (not at MinValue), it is due iff its next occurrence exists and has come |
| Timing.NeverRunDueButNextLater | src/BackerUp.Client/Services/CronTimingService.cs:23-45 | for a job never run the two can disagree, even with an engine answering strictly after its start and a real one-year step back: due now while the next occurrence is reported in the future |

## Left out

- Persistence: `SaveToAppData`, `LoadFromAppData`, `LoadOrCreateForJob` and `GetAppDataDirectory` (JSON files under the application data folder) are I/O. A loaded record enters through `JobsMetadata.Loaded` and a fresh one through the constructor. The many `SaveToAppData` calls within a run are not modelled.
- `Backup.Run` is load plus a `#if DEBUG` gate that calls the due check in release builds. The gate is not modelled as a member. `Timing.IsJobDue` is the check it would call.
- `BackupService.RunAsync` fans jobs out to concurrent tasks with cancellation, and `Program.cs` polls in an endless loop. Both are left out, along with logging, configuration files and the terminal UI.
- The cron engines (Cronos, Quartz.NET) are foreign code. Their parsing and next-occurrence search are the parameters `parse` and `next`, and `DateTime.AddYears(-1)` is the parameter `yearBefore`. Both engines are called without an inclusive start (`GetNextOccurrence(from, TimeZoneInfo.Utc)` and `GetNextValidTimeAfter(from)`), so both answer strictly after the start. Where a property needs the engine's behaviour, the model assumes only the weaker hypothesis that the answer is never earlier than the start (`Timing.StrictNeverEarlier` derives it from the strict one).
- `BackupIncremental.cs` is not part of this model. The incremental strategy is modelled as the snapshot run with the previous snapshot as baseline, recording `Incremental`, which is what the tests expect of it (src/BackerUp.Tests/Client/BackupTests.cs:334).
- BackupMethod: an out-of-range enum value falls back to a full run in the switch. The model's method type has only the three named values.
- Integer width: `NextPackageIndex` and `SnapshotCount` are C# `int`s that would wrap after 2^31 - 1 increments. The model's counters are unbounded.
- `DateTimeKind` is not modelled. Times are ticks, and a local time stored as UTC (the `CreatedUtc` of a new package comes from `DateTime.Now`) is just another tick value.
- Paths are Unix paths with the single separator '/'. Windows separators, drive roots, normalisation of "." and "..", and a `GetRelativePath` result that climbs with ".." are not modelled. The run of separators between a root and the rest of a path is collapsed, as `GetRelativePath` does; a doubled separator further inside a path is kept as written, where .NET's `GetDirectoryName` and `GetRelativePath` would collapse it (directory listings do not produce one below their root). For a change outside its root the model's relative path is the file name; it stands in for the climbing ".." result, which is not modelled. `GetRelativePath` does not throw there, so the `catch` on that line is not what produces it.
- File copying: `CopyPathPreserve` is one `CopyPath` operation per source. The directories it creates and the files it copies inside a source tree are not expanded. Likewise, the parent folder created before each snapshot copy is not listed as its own operation.
- I/O failures: one `try` guards all of a target's work (Backup.cs:46-59, BackupDifferential.cs:61-83), so the first failing operation abandons the rest of that target's operations. The `Effect` lists are the plan of a run in which every operation succeeds; what is skipped after a failure is not modelled.
- Directory deletion is planned for every evicted package under every target. The `Directory.Exists` test before it is not modelled.
- `Packages == null` (a hand-edited record) and null entries in `Sources` or `Targets` are not modelled. Blank strings are.
- A file whose last-write time cannot be read is skipped. The model has it as a listing entry with no time.
- An unreadable directory listing (`Directory.GetFiles` throwing) aborts the snapshot run before any bookkeeping, so the record stays as it was (`BackupDifferential.ListingFailureNoOp`). The code lets that exception escape the method; it does not skip the source. The model follows the code.
- Backup.CreateNewPackageForJob and Backup.EnforceRetention require a target list. They are called only after the run's guard on null targets, and with a null list they would throw.
- Backup.PerformBackup, BackupDifferential.PerformBackup and BackupService.PerformBackupIfDue collapse the run's several `DateTime.UtcNow` reads (including the one inside `IncrementSnapshotCount`) into one instant `nowUtc`.
