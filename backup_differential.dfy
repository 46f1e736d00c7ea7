/**
 * The snapshot strategies (BackupDifferential.PerformBackup, and the
 * incremental strategy built the same way): find the files written since a
 * baseline, and either do nothing, fall back to a full run, or copy them into
 * a new snapshot folder of the current package and count the snapshot.
 */
module BackupDifferential {
  import opened Wrappers
  import opened Model
  import opened Decimal
  import opened Paths
  import opened JobState
  import opened Backup

  /** A file found under a source; `lastWriteUtc` is `None` when reading its time throws. */
  datatype FileStat = FileStat(path: string, lastWriteUtc: Option<Time>)

  /**
   * What the filesystem holds at a path. A directory's recursive listing is
   * `None` when enumerating it throws.
   */
  datatype Node =
    | Directory(listing: Option<seq<FileStat>>)
    | File(lastWriteUtc: Option<Time>)
    | Missing

  type FileSystem = string -> Node

  /** A changed file and the root its relative path is taken from. */
  datatype Change = Change(root: string, path: string)

  /**
   * The timestamp a snapshot strategy compares against: the current package's
   * creation (differential) or the last snapshot of any kind (incremental).
   */
  datatype Baseline = PackageStart | PreviousSnapshot

  function BaselineTime(baseline: Baseline, s: State): Option<Time> {
    match baseline
    case PackageStart => s.lastPackageTimestampUtc
    case PreviousSnapshot => s.lastSnapshotTimestampUtc
  }

  function SnapshotMethod(baseline: Baseline): BackupMethod {
    match baseline
    case PackageStart => Differential
    case PreviousSnapshot => Incremental
  }

  predicate Newer(t: Option<Time>, since: Time) {
    t.Some? && t.value > since
  }

  /** The files of a directory source written after `since`, in listing order. */
  function NewerFiles(root: string, files: seq<FileStat>, since: Time): seq<Change> {
    if files == [] then []
    else
      var f := files[|files| - 1];
      NewerFiles(root, files[..|files| - 1], since)
        + (if Newer(f.lastWriteUtc, since) then [Change(root, f.path)] else [])
  }

  /** The changes one source entry contributes; `None` when listing it throws. */
  function SourceChanges(source: string, fs: FileSystem, since: Time): Option<seq<Change>> {
    if IsBlank(source) then Some([])
    else match fs(source)
      case Directory(None) => None
      case Directory(Some(files)) => Some(NewerFiles(source, files, since))
      case File(t) =>
        if Newer(t, since) then Some([Change(DirectoryName(source).GetOr([]), source)]) else Some([])
      case Missing => Some([])
  }

  /** The changed set of all sources, in order; `None` when some listing throws. */
  function ChangedFiles(sources: seq<string>, fs: FileSystem, since: Time): Option<seq<Change>> {
    if sources == [] then Some([])
    else match ChangedFiles(sources[..|sources| - 1], fs, since)
      case None => None
      case Some(before) =>
        match SourceChanges(sources[|sources| - 1], fs, since)
        case None => None
        case Some(more) => Some(before + more)
  }

  /**
   * What a source reports as changed: a file under a directory source, or a
   * file source itself (rooted at its folder), written after `since`.
   */
  ghost predicate Reports(source: string, fs: FileSystem, since: Time, c: Change) {
    && !IsBlank(source)
    && match fs(source)
       case Directory(Some(files)) =>
         c.root == source && exists f :: f in files && f.path == c.path && Newer(f.lastWriteUtc, since)
       case File(t) => Newer(t, since) && c == Change(DirectoryName(source).GetOr([]), source)
       case _ => false
  }

  /** BackupRetention.Size when positive; 0 means no snapshot cap. */
  function SnapshotLimit(retention: Option<BackupRetention>): int {
    if retention.Some? && retention.value.size > 0 then retention.value.size else 0
  }

  function SnapshotFolder(index: int): string {
    "snapshot_" + IntToString(index)
  }

  /** Which way a snapshot run goes. */
  datatype Decision = Nothing | FallBackToFull | TakeSnapshot(changes: seq<Change>)

  function Decide(job: Option<BackupJob>, s: State, fs: FileSystem, baseline: Baseline): (d: Decision)
    ensures d.TakeSnapshot? ==> Runnable(job) && s.packages != [] && d.changes != []
  {
    if !Runnable(job) then Nothing
    else if s.packages == [] then FallBackToFull
    else match BaselineTime(baseline, s)
      case None => FallBackToFull
      case Some(since) =>
        match ChangedFiles(job.value.sources.value, fs, since)
        case None => Nothing
        case Some(changes) => if changes == [] then Nothing else AtCap(job, s, changes)
  }

  /** With changes found: a full run when the current package is at the snapshot cap, else a snapshot. */
  function AtCap(job: Option<BackupJob>, s: State, changes: seq<Change>): (d: Decision)
    requires job.Some? && s.packages != []
    ensures d.TakeSnapshot? ==> d.changes == changes
  {
    var limit := SnapshotLimit(job.value.retention);
    if limit > 0 && s.packages[|s.packages| - 1].snapshotCount >= limit then FallBackToFull
    else TakeSnapshot(changes)
  }

  /** The record after a snapshot is counted, before retention. */
  function SnapshotCounted(s: State, baseline: Baseline, nowUtc: Time): State
    requires s.packages != []
  {
    var counted := Counted(s, s.packages[|s.packages| - 1].name, nowUtc);
    counted.(lastSnapshotTimestampUtc := Some(nowUtc), lastMethod := SnapshotMethod(baseline))
  }

  /** The record after a run that has taken decision `d`. */
  function Outcome(d: Decision, job: Option<BackupJob>, s: State, baseline: Baseline,
                   nowUtc: Time, localNow: Time): State
    requires d.TakeSnapshot? ==> Runnable(job) && s.packages != []
  {
    match d
    case Nothing => s
    case FallBackToFull => FullRun(job, s, nowUtc, localNow)
    case TakeSnapshot(_) => Retained(job.value.retention, SnapshotCounted(s, baseline, nowUtc))
  }

  /** The record after a snapshot run that started at `nowUtc`. */
  function SnapshotRun(job: Option<BackupJob>, s: State, fs: FileSystem, baseline: Baseline,
                       nowUtc: Time, localNow: Time): State
  {
    Outcome(Decide(job, s, fs, baseline), job, s, baseline, nowUtc, localNow)
  }

  /** The folder a change lands in inside the snapshot: its root's last segment, or "files". */
  function TopFolder(root: string, fs: FileSystem): string {
    if root == [] then "files"
    else
      var name := if fs(root).Directory? then FileName(TrimEndingSeparator(root)) else FileName(root);
      if name == [] then "files" else name
  }

  /** The top folder is one non-empty path segment. */
  lemma TopFolderIsSegment(root: string, fs: FileSystem)
    ensures TopFolder(root, fs) != [] && Separator !in TopFolder(root, fs)
  {
    FileNameExact(TrimEndingSeparator(root));
    FileNameExact(root);
  }

  /** The path of a change below its top folder; the bare file name when it has no root. */
  function RelativePart(c: Change): string {
    if c.root == [] then FileName(c.path) else RelativePath(c.root, c.path)
  }

  function SnapshotDirectory(target: string, package: string, index: int): string {
    Combine(Combine(target, package), SnapshotFolder(index))
  }

  function Destination(snapDir: string, c: Change, fs: FileSystem): string {
    Combine(Combine(snapDir, TopFolder(c.root, fs)), RelativePart(c))
  }

  /** The copies into one snapshot folder, one per change in order (each creating the folders it needs). */
  function ChangeCopies(changes: seq<Change>, snapDir: string, fs: FileSystem): seq<Effect> {
    seq(|changes|, i requires 0 <= i < |changes| => CopyFile(changes[i].path, Destination(snapDir, changes[i], fs)))
  }

  function SnapshotCopies(targets: seq<string>, changes: seq<Change>, package: string, index: int,
                          fs: FileSystem): seq<Effect>
  {
    if targets == [] then []
    else
      var snapDir := SnapshotDirectory(targets[|targets| - 1], package, index);
      SnapshotCopies(targets[..|targets| - 1], changes, package, index, fs)
        + [CreateDirectory(snapDir)] + ChangeCopies(changes, snapDir, fs)
  }

  /** The filesystem operations of a run that has taken decision `d`, when every operation succeeds, in order. */
  function OutcomeEffects(d: Decision, job: Option<BackupJob>, s: State, fs: FileSystem, baseline: Baseline,
                          nowUtc: Time, localNow: Time): seq<Effect>
    requires d.TakeSnapshot? ==> Runnable(job) && s.packages != []
  {
    match d
    case Nothing => []
    case FallBackToFull => FullRunEffects(job, s, nowUtc, localNow)
    case TakeSnapshot(changes) =>
      var current := s.packages[|s.packages| - 1];
      SnapshotCopies(job.value.targets.value, changes, current.name, current.snapshotCount, fs)
        + Deletions(RetentionEvicted(job.value.retention, SnapshotCounted(s, baseline, nowUtc)),
                    job.value.targets.value)
  }

  /** The filesystem operations of a snapshot run in which every operation succeeds, in order. */
  function SnapshotRunEffects(job: Option<BackupJob>, s: State, fs: FileSystem, baseline: Baseline,
                              nowUtc: Time, localNow: Time): seq<Effect>
  {
    OutcomeEffects(Decide(job, s, fs, baseline), job, s, fs, baseline, nowUtc, localNow)
  }

  /** At most `size` snapshots in every package. */
  ghost predicate CountsWithin(ps: seq<PackageEntry>, size: int) {
    forall i :: 0 <= i < |ps| ==> ps[i].snapshotCount <= size
  }

  /** A run without a job, a source list or a target list changes nothing and touches no file. */
  lemma SnapshotRunNeedsJob(job: Option<BackupJob>, s: State, fs: FileSystem, baseline: Baseline,
                            nowUtc: Time, localNow: Time)
    requires !Runnable(job)
    ensures SnapshotRun(job, s, fs, baseline, nowUtc, localNow) == s
    ensures SnapshotRunEffects(job, s, fs, baseline, nowUtc, localNow) == []
  {
  }

  /** With no current package, or no baseline timestamp, a snapshot run is a full run, method and all. */
  lemma NoBaselineFallsBackToFull(job: Option<BackupJob>, s: State, fs: FileSystem, baseline: Baseline,
                                  nowUtc: Time, localNow: Time)
    requires Runnable(job) && (s.packages == [] || BaselineTime(baseline, s).None?)
    ensures SnapshotRun(job, s, fs, baseline, nowUtc, localNow) == FullRun(job, s, nowUtc, localNow)
    ensures SnapshotRunEffects(job, s, fs, baseline, nowUtc, localNow) == FullRunEffects(job, s, nowUtc, localNow)
    ensures SnapshotRun(job, s, fs, baseline, nowUtc, localNow).lastMethod == Full
  {
    FullRunRetention(job, s, nowUtc, localNow);
  }

  /** Nothing written since the baseline: the run changes nothing at all and touches no file. */
  lemma NoChangesNoOp(job: Option<BackupJob>, s: State, fs: FileSystem, baseline: Baseline,
                      nowUtc: Time, localNow: Time)
    requires Runnable(job) && s.packages != [] && BaselineTime(baseline, s).Some?
    requires ChangedFiles(job.value.sources.value, fs, BaselineTime(baseline, s).value) == Some([])
    ensures SnapshotRun(job, s, fs, baseline, nowUtc, localNow) == s
    ensures SnapshotRunEffects(job, s, fs, baseline, nowUtc, localNow) == []
  {
  }

  /**
   * The converse of the guards: a runnable job with a current package, a
   * baseline, some changes and no cap reached takes a snapshot of exactly
   * those changes.
   */
  lemma BelowCapTakesSnapshot(job: Option<BackupJob>, s: State, fs: FileSystem, baseline: Baseline,
                              changes: seq<Change>, nowUtc: Time, localNow: Time)
    requires Runnable(job) && s.packages != [] && BaselineTime(baseline, s).Some?
    requires ChangedFiles(job.value.sources.value, fs, BaselineTime(baseline, s).value) == Some(changes)
    requires changes != []
    requires var limit := SnapshotLimit(job.value.retention);
      limit <= 0 || s.packages[|s.packages| - 1].snapshotCount < limit
    ensures Decide(job, s, fs, baseline) == TakeSnapshot(changes)
    ensures SnapshotRun(job, s, fs, baseline, nowUtc, localNow)
      == Retained(job.value.retention, SnapshotCounted(s, baseline, nowUtc))
  {
  }

  /** A source listing that throws aborts the run: the record stays as it was and no file is touched. */
  lemma ListingFailureNoOp(job: Option<BackupJob>, s: State, fs: FileSystem, baseline: Baseline,
                           nowUtc: Time, localNow: Time)
    requires Runnable(job) && s.packages != [] && BaselineTime(baseline, s).Some?
    requires ChangedFiles(job.value.sources.value, fs, BaselineTime(baseline, s).value).None?
    ensures SnapshotRun(job, s, fs, baseline, nowUtc, localNow) == s
    ensures SnapshotRunEffects(job, s, fs, baseline, nowUtc, localNow) == []
  {
  }

  /** A current package already at the snapshot cap: the run opens a new package by a full run instead. */
  lemma CapFallsBackToFull(job: Option<BackupJob>, s: State, fs: FileSystem, baseline: Baseline,
                           nowUtc: Time, localNow: Time)
    requires Runnable(job) && s.packages != [] && BaselineTime(baseline, s).Some?
    requires var changed := ChangedFiles(job.value.sources.value, fs, BaselineTime(baseline, s).value);
      changed.Some? && changed.value != []
    requires var limit := SnapshotLimit(job.value.retention);
      limit > 0 && s.packages[|s.packages| - 1].snapshotCount >= limit
    ensures SnapshotRun(job, s, fs, baseline, nowUtc, localNow) == FullRun(job, s, nowUtc, localNow)
    ensures SnapshotRun(job, s, fs, baseline, nowUtc, localNow).nextPackageIndex == s.nextPackageIndex + 1
  {
    var changes := ChangedFiles(job.value.sources.value, fs, BaselineTime(baseline, s).value).value;
    assert AtCap(job, s, changes) == FallBackToFull;
    assert Decide(job, s, fs, baseline) == FallBackToFull;
    FullRunRetention(job, s, nowUtc, localNow);
  }

  /**
   * A snapshot: the current package's count rises by one and no other entry
   * changes; the package timestamp and counter stay, the snapshot timestamp is
   * the run's clock and the method is the strategy's. Retention then trims only
   * a list that was already longer than the keep-count.
   */
  lemma SnapshotCountsOne(job: Option<BackupJob>, s: State, fs: FileSystem, baseline: Baseline,
                          nowUtc: Time, localNow: Time)
    requires Decide(job, s, fs, baseline).TakeSnapshot?
    ensures s.packages != []
    ensures var r := SnapshotCounted(s, baseline, nowUtc);
      var n := |s.packages|;
      && |r.packages| == n
      && r.packages[n - 1] == s.packages[n - 1].(snapshotCount := s.packages[n - 1].snapshotCount + 1)
      && r.packages[..n - 1] == s.packages[..n - 1]
      && r.nextPackageIndex == s.nextPackageIndex
      && r.lastPackageTimestampUtc == s.lastPackageTimestampUtc
      && r.lastSnapshotTimestampUtc == Some(nowUtc)
      && r.lastMethod == SnapshotMethod(baseline)
    ensures var retention := job.value.retention;
      retention.None? || retention.value.count <= 0 || |s.packages| <= retention.value.count ==>
        SnapshotRun(job, s, fs, baseline, nowUtc, localNow) == SnapshotCounted(s, baseline, nowUtc)
  {
    SnapshotTaken(job, s, fs, baseline, nowUtc, localNow);
    CountedBumpsLast(s, baseline, nowUtc);
    var retention := job.value.retention;
    if retention.Some? && retention.value.count > 0 && |s.packages| <= retention.value.count {
      PurgeWithinLimit(SnapshotCounted(s, baseline, nowUtc), retention.value.count);
    }
  }

  /** A run that takes a snapshot leaves the counted record, retention applied. */
  lemma SnapshotTaken(job: Option<BackupJob>, s: State, fs: FileSystem, baseline: Baseline,
                      nowUtc: Time, localNow: Time)
    requires Decide(job, s, fs, baseline).TakeSnapshot?
    ensures Runnable(job) && s.packages != []
    ensures SnapshotRun(job, s, fs, baseline, nowUtc, localNow)
      == Retained(job.value.retention, SnapshotCounted(s, baseline, nowUtc))
    ensures var current := s.packages[|s.packages| - 1];
      SnapshotRunEffects(job, s, fs, baseline, nowUtc, localNow)
        == SnapshotCopies(job.value.targets.value, Decide(job, s, fs, baseline).changes, current.name,
                          current.snapshotCount, fs)
        + Deletions(RetentionEvicted(job.value.retention, SnapshotCounted(s, baseline, nowUtc)),
                    job.value.targets.value)
  {
  }

  /** Counting a snapshot bumps the last entry only and stamps the run's clock and method. */
  lemma CountedBumpsLast(s: State, baseline: Baseline, nowUtc: Time)
    requires s.packages != []
    ensures var r := SnapshotCounted(s, baseline, nowUtc);
      var n := |s.packages|;
      && |r.packages| == n
      && r.packages[n - 1] == s.packages[n - 1].(snapshotCount := s.packages[n - 1].snapshotCount + 1)
      && r.packages[..n - 1] == s.packages[..n - 1]
      && r.nextPackageIndex == s.nextPackageIndex
      && r.lastPackageTimestampUtc == s.lastPackageTimestampUtc
      && r.lastSnapshotTimestampUtc == Some(nowUtc)
      && r.lastMethod == SnapshotMethod(baseline)
  {
    var n := |s.packages|;
    assert LastIndexNamed(s.packages, s.packages[n - 1].name) == Some(n - 1);
  }

  /**
   * Differential snapshots keep the package start as their baseline, so each
   * one again captures everything written since the package began; incremental
   * snapshots move their baseline to this run.
   */
  lemma BaselineAfterSnapshot(job: Option<BackupJob>, s: State, fs: FileSystem, baseline: Baseline,
                              nowUtc: Time, localNow: Time)
    requires Decide(job, s, fs, baseline).TakeSnapshot?
    ensures var r := SnapshotRun(job, s, fs, baseline, nowUtc, localNow);
      && BaselineTime(PackageStart, r) == BaselineTime(PackageStart, s)
      && BaselineTime(PreviousSnapshot, r) == Some(nowUtc)
  {
    SnapshotCountsOne(job, s, fs, baseline, nowUtc, localNow);
  }

  /** After a full run the current package holds one snapshot, so the next snapshot folder is snapshot_1. */
  lemma FirstSnapshotIsOne(job: Option<BackupJob>, s: State, nowUtc: Time, localNow: Time)
    requires Runnable(job)
    ensures var r := FullRun(job, s, nowUtc, localNow);
      r.packages != [] && r.packages[|r.packages| - 1].snapshotCount == 1
      && SnapshotFolder(r.packages[|r.packages| - 1].snapshotCount) == "snapshot_1"
  {
    FullRunRetention(job, s, nowUtc, localNow);
  }

  /** A full run keeps every package within a positive snapshot cap: the new one holds one snapshot. */
  lemma FullRunKeepsCap(job: Option<BackupJob>, s: State, nowUtc: Time, localNow: Time)
    requires Runnable(job) && SnapshotLimit(job.value.retention) > 0
    requires CountsWithin(s.packages, SnapshotLimit(job.value.retention))
    ensures CountsWithin(FullRun(job, s, nowUtc, localNow).packages, SnapshotLimit(job.value.retention))
  {
    FullRunRetention(job, s, nowUtc, localNow);
    var r := FullRun(job, s, nowUtc, localNow);
    var all := s.packages + [r.packages[|r.packages| - 1]];
    var d := |all| - |r.packages|;
    assert forall i :: 0 <= i < |r.packages| ==> r.packages[i] == all[d + i];
  }

  /** If every package is within a positive snapshot cap before any snapshot run of the job, it is after. */
  lemma SnapshotRunKeepsCap(job: Option<BackupJob>, s: State, fs: FileSystem, baseline: Baseline,
                            nowUtc: Time, localNow: Time)
    requires job.Some? && SnapshotLimit(job.value.retention) > 0
    requires CountsWithin(s.packages, SnapshotLimit(job.value.retention))
    ensures CountsWithin(SnapshotRun(job, s, fs, baseline, nowUtc, localNow).packages,
                         SnapshotLimit(job.value.retention))
  {
    var limit := SnapshotLimit(job.value.retention);
    match Decide(job, s, fs, baseline)
    case Nothing =>
    case FallBackToFull =>
      FullRunKeepsCap(job, s, nowUtc, localNow);
    case TakeSnapshot(_) =>
      var c := SnapshotCounted(s, baseline, nowUtc);
      CountedKeepsCap(s, baseline, nowUtc, limit);
      var keep := job.value.retention.value.count;
      if keep > 0 {
        PurgeKeepsCap(c, keep, limit);
      }
  }

  /** Counting a snapshot in a current package still below the cap keeps every package within it. */
  lemma CountedKeepsCap(s: State, baseline: Baseline, nowUtc: Time, limit: int)
    requires s.packages != [] && s.packages[|s.packages| - 1].snapshotCount < limit
    requires CountsWithin(s.packages, limit)
    ensures CountsWithin(SnapshotCounted(s, baseline, nowUtc).packages, limit)
  {
    var n := |s.packages|;
    var name := s.packages[n - 1].name;
    assert Names(s.packages)[n - 1] == name;
    CountedBumpsOne(s, name, nowUtc);
  }

  /** Dropping the oldest packages keeps the rest within the cap. */
  lemma PurgeKeepsCap(s: State, keep: int, limit: int)
    requires CountsWithin(s.packages, limit)
    ensures CountsWithin(Purged(s, keep).packages, limit)
  {
    var d := ToRemove(|s.packages|, keep);
    assert forall i :: 0 <= i < |Purged(s, keep).packages| ==> Purged(s, keep).packages[i] == s.packages[d + i];
  }

  /** Package names are never reused: a snapshot run keeps the record well named. */
  lemma SnapshotRunKeepsWellNamed(job: Option<BackupJob>, s: State, fs: FileSystem, baseline: Baseline,
                                  nowUtc: Time, localNow: Time)
    requires job.Some? && WellNamed(job.value.id, s)
    ensures WellNamed(job.value.id, SnapshotRun(job, s, fs, baseline, nowUtc, localNow))
  {
    match Decide(job, s, fs, baseline)
    case Nothing =>
    case FallBackToFull =>
      FullRunKeepsWellNamed(job, s, nowUtc, localNow);
    case TakeSnapshot(_) =>
      TakenKeepsWellNamed(job.value.id, job.value.retention, s, baseline, nowUtc);
  }

  /** A snapshot, retention included, keeps the record well named. */
  lemma TakenKeepsWellNamed(id: int, retention: Option<BackupRetention>, s: State, baseline: Baseline,
                            nowUtc: Time)
    requires s.packages != [] && WellNamed(id, s)
    ensures WellNamed(id, Retained(retention, SnapshotCounted(s, baseline, nowUtc)))
  {
    var c := SnapshotCounted(s, baseline, nowUtc);
    CountedKeepsWellNamed(id, s, baseline, nowUtc);
    if retention.Some? && retention.value.count > 0 {
      PurgeKeepsWellNamed(id, c, retention.value.count);
    }
  }

  /** Counting a snapshot renames nothing and leaves the counter alone. */
  lemma CountedKeepsWellNamed(id: int, s: State, baseline: Baseline, nowUtc: Time)
    requires s.packages != [] && WellNamed(id, s)
    ensures WellNamed(id, SnapshotCounted(s, baseline, nowUtc))
  {
    CountedSameNames(s, s.packages[|s.packages| - 1].name, nowUtc);
    SameNamesWellNamed(id, s, SnapshotCounted(s, baseline, nowUtc));
  }

  /** A directory's listing contributes exactly its files written after `since`, rooted at the directory. */
  lemma {:induction false} NewerFilesExact(root: string, files: seq<FileStat>, since: Time, c: Change)
    ensures c in NewerFiles(root, files, since) <==>
      c.root == root && exists f :: f in files && f.path == c.path && Newer(f.lastWriteUtc, since)
  {
    if files != [] {
      var init := files[..|files| - 1];
      NewerFilesExact(root, init, since, c);
      assert files == init + [files[|files| - 1]];
    }
  }

  /**
   * The changed set holds exactly the files the sources report: a file is in
   * it iff it was written strictly after `since`; blank sources add nothing.
   */
  lemma {:induction false} ChangedFilesExact(sources: seq<string>, fs: FileSystem, since: Time, c: Change)
    requires ChangedFiles(sources, fs, since).Some?
    ensures c in ChangedFiles(sources, fs, since).value <==>
      exists src :: src in sources && Reports(src, fs, since, c)
  {
    if sources != [] {
      var init := sources[..|sources| - 1];
      var src := sources[|sources| - 1];
      ChangedFilesExact(init, fs, since, c);
      assert sources == init + [src];
      var more := SourceChanges(src, fs, since).value;
      assert c in more <==> Reports(src, fs, since, c) by {
        if !IsBlank(src) && fs(src).Directory? && fs(src).listing.Some? {
          NewerFilesExact(src, fs(src).listing.value, since, c);
        }
      }
    }
  }

  /** The copies of a snapshot are exactly: each target's snapshot folder, and each change copied into each of them. */
  lemma {:induction false} SnapshotCopiesExact(targets: seq<string>, changes: seq<Change>, package: string,
                                               index: int, fs: FileSystem, e: Effect)
    ensures e in SnapshotCopies(targets, changes, package, index, fs) <==>
      exists t :: t in targets && IntoSnapshot(e, changes, SnapshotDirectory(t, package, index), fs)
  {
    if targets != [] {
      var init := targets[..|targets| - 1];
      var last := targets[|targets| - 1];
      var snapDir := SnapshotDirectory(last, package, index);
      var before := SnapshotCopies(init, changes, package, index, fs);
      var mine := [CreateDirectory(snapDir)] + ChangeCopies(changes, snapDir, fs);
      SnapshotCopiesExact(init, changes, package, index, fs, e);
      assert SnapshotCopies(targets, changes, package, index, fs) == before + mine;
      assert last in targets;
      if e in before {
        var t :| t in init && IntoSnapshot(e, changes, SnapshotDirectory(t, package, index), fs);
        assert t in targets;
      } else if e in mine {
        assert IntoSnapshot(e, changes, snapDir, fs);
      }
      if exists t :: t in targets && IntoSnapshot(e, changes, SnapshotDirectory(t, package, index), fs) {
        var t :| t in targets && IntoSnapshot(e, changes, SnapshotDirectory(t, package, index), fs);
        if t == last {
          assert e in mine;
        } else {
          assert t in init;
          assert e in before;
        }
      }
    }
  }

  /**
   * A snapshot creates `snapshot_<count before the run>` of the current package
   * under every target and copies every changed file into it.
   */
  lemma SnapshotWritesEveryChange(job: Option<BackupJob>, s: State, fs: FileSystem, baseline: Baseline,
                                  nowUtc: Time, localNow: Time, t: string, i: int)
    requires Decide(job, s, fs, baseline).TakeSnapshot?
    requires t in job.value.targets.value && 0 <= i < |Decide(job, s, fs, baseline).changes|
    ensures var current := s.packages[|s.packages| - 1];
      var snapDir := SnapshotDirectory(t, current.name, current.snapshotCount);
      var c := Decide(job, s, fs, baseline).changes[i];
      var effects := SnapshotRunEffects(job, s, fs, baseline, nowUtc, localNow);
      CreateDirectory(snapDir) in effects && CopyFile(c.path, Destination(snapDir, c, fs)) in effects
  {
    SnapshotTaken(job, s, fs, baseline, nowUtc, localNow);
    var changes := Decide(job, s, fs, baseline).changes;
    var current := s.packages[|s.packages| - 1];
    var snapDir := SnapshotDirectory(t, current.name, current.snapshotCount);
    var copies := SnapshotCopies(job.value.targets.value, changes, current.name, current.snapshotCount, fs);
    var copy := CopyFile(changes[i].path, Destination(snapDir, changes[i], fs));
    assert ChangeCopies(changes, snapDir, fs)[i] == copy;
    SnapshotCopiesExact(job.value.targets.value, changes, current.name, current.snapshotCount, fs,
                        CreateDirectory(snapDir));
    SnapshotCopiesExact(job.value.targets.value, changes, current.name, current.snapshotCount, fs, copy);
    var effects := SnapshotRunEffects(job, s, fs, baseline, nowUtc, localNow);
    assert effects[..|copies|] == copies;
  }

  /** `e` creates the snapshot folder `snapDir` or is one of the copies of `changes` into it. */
  ghost predicate IntoSnapshot(e: Effect, changes: seq<Change>, snapDir: string, fs: FileSystem) {
    e == CreateDirectory(snapDir) || e in ChangeCopies(changes, snapDir, fs)
  }

  /** A file found below a directory source keeps its path relative to the source, under the source's folder. */
  lemma DestinationKeepsStructure(snapDir: string, source: string, rel: string, fs: FileSystem)
    requires source != [] && rel != [] && rel[0] != Separator
    ensures Destination(snapDir, Change(source, Combine(source, rel)), fs)
      == Combine(Combine(snapDir, TopFolder(source, fs)), rel)
  {
    RelativePathOfCombine(source, rel);
  }

  /**
   * A file source written with a doubled separator, `d//f.txt`, is reported
   * with the root `d`.
   */
  lemma DoubledSeparatorRoot(fs: FileSystem, since: Time)
    requires fs("d//f.txt").File? && Newer(fs("d//f.txt").lastWriteUtc, since)
    ensures SourceChanges("d//f.txt", fs, since) == Some([Change("d", "d//f.txt")])
  {
    var p := "d//f.txt";
    assert p[2] == Separator && p[3] != Separator && p[4] != Separator;
    assert p[5] != Separator && p[6] != Separator && p[7] != Separator;
    LastSeparatorBeforeExact(p, |p|);
    assert LastSeparator(p) == Some(2);
    assert p[..2] == "d/";
    TrimmedLengthExact("d/", 2);
    assert TrimTrailingSeparators("d/") == "d";
  }

  /**
   * A file below a root, however many separators come between them, keeps only
   * its name below the root's folder: `d//f.txt` under the root `d` lands at
   * `<snapDir>/d/f.txt`.
   */
  lemma DestinationAfterSeparators(snapDir: string, root: string, seps: string, name: string, fs: FileSystem)
    requires root != [] && name != [] && name[0] != Separator
    requires forall i :: 0 <= i < |seps| ==> seps[i] == Separator
    requires seps != [] || root[|root| - 1] == Separator
    ensures Destination(snapDir, Change(root, root + seps + name), fs)
      == Combine(Combine(snapDir, TopFolder(root, fs)), name)
  {
    RelativePathAfterSeparators(root, seps, name);
  }

  lemma ChangedFilesAbort(sources: seq<string>, k: nat, fs: FileSystem, since: Time)
    requires k <= |sources| && ChangedFiles(sources[..k], fs, since).None?
    ensures ChangedFiles(sources, fs, since).None?
    decreases |sources| - k
  {
    if k < |sources| {
      assert sources[..k + 1][..k] == sources[..k];
      ChangedFilesAbort(sources, k + 1, fs, since);
    } else {
      assert sources[..k] == sources;
    }
  }

  /** The change-detection loops: sources in order, blank ones skipped. */
  method DetectChanges(sources: seq<string>, fs: FileSystem, since: Time) returns (changed: Option<seq<Change>>)
    ensures changed == ChangedFiles(sources, fs, since)
  {
    var found: seq<Change> := [];
    for k := 0 to |sources|
      invariant ChangedFiles(sources[..k], fs, since) == Some(found)
    {
      assert sources[..k + 1][..k] == sources[..k];
      var more := ScanSource(sources[k], fs, since);
      if more.None? {
        ChangedFilesAbort(sources, k + 1, fs, since);
        return None;
      }
      found := found + more.value;
    }
    assert sources[..|sources|] == sources;
    return Some(found);
  }

  /** One source entry: a directory's files in listing order, or the file itself. */
  method ScanSource(src: string, fs: FileSystem, since: Time) returns (more: Option<seq<Change>>)
    ensures more == SourceChanges(src, fs, since)
  {
    if IsBlank(src) {
      return Some([]);
    }
    match fs(src)
    case Directory(None) =>
      return None;
    case Directory(Some(files)) =>
      var found: seq<Change> := [];
      for i := 0 to |files|
        invariant found == NewerFiles(src, files[..i], since)
      {
        assert files[..i + 1][..i] == files[..i];
        if Newer(files[i].lastWriteUtc, since) {
          found := found + [Change(src, files[i].path)];
        }
      }
      assert files[..|files|] == files;
      return Some(found);
    case File(t) =>
      if Newer(t, since) {
        return Some([Change(DirectoryName(src).GetOr([]), src)]);
      }
      return Some([]);
    case Missing =>
      return Some([]);
  }

  /** The copy loop of a snapshot: every target gets the snapshot folder, then every changed file. */
  method CopyIntoSnapshot(targets: seq<string>, changes: seq<Change>, package: string, index: int,
                          fs: FileSystem) returns (effects: seq<Effect>)
    ensures effects == SnapshotCopies(targets, changes, package, index, fs)
  {
    effects := [];
    for t := 0 to |targets|
      invariant effects == SnapshotCopies(targets[..t], changes, package, index, fs)
    {
      var snapDir := SnapshotDirectory(targets[t], package, index);
      var copies := CopyChanges(changes, snapDir, fs);
      effects := effects + [CreateDirectory(snapDir)] + copies;
      assert targets[..t + 1][..t] == targets[..t];
    }
    assert targets[..|targets|] == targets;
  }

  /** The copies of the changed files into one snapshot folder. */
  method CopyChanges(changes: seq<Change>, snapDir: string, fs: FileSystem) returns (effects: seq<Effect>)
    ensures effects == ChangeCopies(changes, snapDir, fs)
  {
    effects := [];
    for i := 0 to |changes|
      invariant effects == ChangeCopies(changes[..i], snapDir, fs)
    {
      var c := changes[i];
      var rel := RelativePart(c);
      var topFolder := TopFolder(c.root, fs);
      var dest := Combine(Combine(snapDir, topFolder), rel);
      ChangeCopiesSnoc(changes[..i], c, snapDir, fs);
      assert changes[..i + 1] == changes[..i] + [c];
      effects := effects + [CopyFile(c.path, dest)];
    }
    assert changes[..|changes|] == changes;
  }

  lemma ChangeCopiesSnoc(changes: seq<Change>, c: Change, snapDir: string, fs: FileSystem)
    ensures ChangeCopies(changes + [c], snapDir, fs)
      == ChangeCopies(changes, snapDir, fs) + [CopyFile(c.path, Destination(snapDir, c, fs))]
  {
  }

  /**
   * The snapshot branch: copy the changes into `snapshot_<count>` of the current
   * package `current`, then count it.
   */
  method RecordSnapshot(job: BackupJob, meta: JobsMetadata, current: PackageEntry, changes: seq<Change>,
                        baseline: Baseline, fs: FileSystem, nowUtc: Time) returns (effects: seq<Effect>)
    requires job.targets.Some? && meta.packages != [] && current == meta.packages[|meta.packages| - 1]
    modifies meta
    ensures meta.Value() == Retained(job.retention, SnapshotCounted(old(meta.Value()), baseline, nowUtc))
    ensures effects == SnapshotCopies(job.targets.value, changes, current.name, current.snapshotCount, fs)
      + Deletions(RetentionEvicted(job.retention, SnapshotCounted(old(meta.Value()), baseline, nowUtc)),
                  job.targets.value)
  {
    ghost var counted := SnapshotCounted(meta.Value(), baseline, nowUtc);
    var copies := CopyIntoSnapshot(job.targets.value, changes, current.name, current.snapshotCount, fs);
    meta.IncrementSnapshotCount(current.name, nowUtc);
    meta.lastSnapshotTimestampUtc := Some(nowUtc);
    meta.lastMethod := SnapshotMethod(baseline);
    assert meta.Value() == counted;
    var deletions := EnforceRetention(job, meta);
    effects := copies + deletions;
  }

  /**
   * A snapshot run. `baseline` selects the strategy; `nowUtc` is the run's UTC
   * clock and `localNow` the creation clock of a package a fallback opens.
   */
  method PerformBackup(job: Option<BackupJob>, meta: JobsMetadata, fs: FileSystem, baseline: Baseline,
                       nowUtc: Time, localNow: Time) returns (effects: seq<Effect>)
    modifies meta
    ensures meta.Value() == SnapshotRun(job, old(meta.Value()), fs, baseline, nowUtc, localNow)
    ensures effects == SnapshotRunEffects(job, old(meta.Value()), fs, baseline, nowUtc, localNow)
  {
    if job.None? || job.value.targets.None? || job.value.sources.None? {
      return [];
    }
    var j := job.value;
    ghost var s0 := meta.Value();
    var current := meta.GetCurrentPackage();
    if current.None? {
      assert Decide(job, s0, fs, baseline) == FallBackToFull;
      effects := Backup.PerformBackup(job, meta, nowUtc, localNow);
      return;
    }
    var last := BaselineTime(baseline, meta.Value());
    if last.None? {
      assert Decide(job, s0, fs, baseline) == FallBackToFull;
      effects := Backup.PerformBackup(job, meta, nowUtc, localNow);
      return;
    }
    effects := SnapshotSince(job, meta, fs, baseline, last.value, nowUtc, localNow);
  }

  /**
   * The rest of a snapshot run once a current package and a baseline timestamp
   * `since` exist: detect the changes, then fall back at the cap or take the snapshot.
   */
  method SnapshotSince(job: Option<BackupJob>, meta: JobsMetadata, fs: FileSystem, baseline: Baseline,
                       since: Time, nowUtc: Time, localNow: Time) returns (effects: seq<Effect>)
    requires Runnable(job) && meta.packages != [] && BaselineTime(baseline, meta.Value()) == Some(since)
    modifies meta
    ensures meta.Value() == SnapshotRun(job, old(meta.Value()), fs, baseline, nowUtc, localNow)
    ensures effects == SnapshotRunEffects(job, old(meta.Value()), fs, baseline, nowUtc, localNow)
  {
    var j := job.value;
    ghost var s0 := meta.Value();
    var changed := DetectChanges(j.sources.value, fs, since);
    if changed.None? || |changed.value| == 0 {
      assert Decide(job, s0, fs, baseline) == Nothing;
      return [];
    }
    assert Decide(job, s0, fs, baseline) == AtCap(job, s0, changed.value);
    effects := SnapshotOrFallBack(job, meta, changed.value, baseline, fs, nowUtc, localNow);
  }

  /** Changes were found: a full run at the snapshot cap, else the snapshot. */
  method SnapshotOrFallBack(job: Option<BackupJob>, meta: JobsMetadata, changes: seq<Change>, baseline: Baseline,
                            fs: FileSystem, nowUtc: Time, localNow: Time) returns (effects: seq<Effect>)
    requires Runnable(job) && meta.packages != [] && changes != []
    modifies meta
    ensures var d := AtCap(job, old(meta.Value()), changes);
      meta.Value() == Outcome(d, job, old(meta.Value()), baseline, nowUtc, localNow)
    ensures var d := AtCap(job, old(meta.Value()), changes);
      effects == OutcomeEffects(d, job, old(meta.Value()), fs, baseline, nowUtc, localNow)
  {
    var j := job.value;
    ghost var s0 := meta.Value();
    var current := meta.GetCurrentPackage();
    if current.None? {
      return [];
    }
    var snapshotIndex := current.value.snapshotCount;
    var keepSnapshots := if j.retention.Some? && j.retention.value.size > 0 then j.retention.value.size else 0;
    if keepSnapshots > 0 && snapshotIndex >= keepSnapshots {
      assert AtCap(job, s0, changes) == FallBackToFull;
      effects := Backup.PerformBackup(job, meta, nowUtc, localNow);
      return;
    }
    assert AtCap(job, s0, changes) == TakeSnapshot(changes);
    effects := RecordSnapshot(j, meta, current.value, changes, baseline, fs, nowUtc);
  }
}
