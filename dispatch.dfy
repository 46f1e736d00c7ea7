/**
 * The service that runs a job with the strategy its method names: full,
 * differential (snapshots against the package start) or incremental
 * (snapshots against the previous snapshot).
 */
module BackupService {
  import opened Wrappers
  import opened Model
  import opened JobState
  import Backup
  import opened BackupDifferential

  /** The record after running `job` with the strategy its method selects; a missing job changes nothing. */
  function Dispatched(job: Option<BackupJob>, s: State, fs: FileSystem, nowUtc: Time, localNow: Time): State {
    if job.None? then s
    else match job.value.backupMethod
      case Full => Backup.FullRun(job, s, nowUtc, localNow)
      case Differential => SnapshotRun(job, s, fs, PackageStart, nowUtc, localNow)
      case Incremental => SnapshotRun(job, s, fs, PreviousSnapshot, nowUtc, localNow)
  }

  /** The filesystem operations of that run when every operation succeeds, in order. */
  function DispatchedEffects(job: Option<BackupJob>, s: State, fs: FileSystem, nowUtc: Time,
                             localNow: Time): seq<Backup.Effect>
  {
    if job.None? then []
    else match job.value.backupMethod
      case Full => Backup.FullRunEffects(job, s, nowUtc, localNow)
      case Differential => SnapshotRunEffects(job, s, fs, PackageStart, nowUtc, localNow)
      case Incremental => SnapshotRunEffects(job, s, fs, PreviousSnapshot, nowUtc, localNow)
  }

  /** Whatever the method, a run that changes the record stamps it with the job's own method or with a full run. */
  lemma DispatchRecordsMethod(job: Option<BackupJob>, s: State, fs: FileSystem, nowUtc: Time, localNow: Time)
    requires Dispatched(job, s, fs, nowUtc, localNow) != s
    ensures job.Some? && Runnable(job)
    ensures var m := Dispatched(job, s, fs, nowUtc, localNow).lastMethod;
      m == Full || m == job.value.backupMethod
    ensures job.value.backupMethod == Full ==> Dispatched(job, s, fs, nowUtc, localNow).lastMethod == Full
    ensures Dispatched(job, s, fs, nowUtc, localNow).lastSnapshotTimestampUtc == Some(nowUtc)
  {
    var j := job.value;
    if !Runnable(job) {
      Backup.FullRunNeedsJob(job, s, nowUtc, localNow);
      match j.backupMethod {
        case Full =>
        case Differential => SnapshotRunNeedsJob(job, s, fs, PackageStart, nowUtc, localNow);
        case Incremental => SnapshotRunNeedsJob(job, s, fs, PreviousSnapshot, nowUtc, localNow);
      }
      assert false;
    }
    Backup.FullRunRetention(job, s, nowUtc, localNow);
    match j.backupMethod
    case Full =>
    case Differential => StampedBySnapshotRun(job, s, fs, PackageStart, nowUtc, localNow);
    case Incremental => StampedBySnapshotRun(job, s, fs, PreviousSnapshot, nowUtc, localNow);
  }

  /** A snapshot run that changes the record stamps it with the run's clock and with its method or a full run. */
  lemma StampedBySnapshotRun(job: Option<BackupJob>, s: State, fs: FileSystem, baseline: Baseline,
                             nowUtc: Time, localNow: Time)
    requires Runnable(job)
    requires SnapshotRun(job, s, fs, baseline, nowUtc, localNow) != s
    ensures var r := SnapshotRun(job, s, fs, baseline, nowUtc, localNow);
      && r.lastSnapshotTimestampUtc == Some(nowUtc)
      && (r.lastMethod == Full || r.lastMethod == SnapshotMethod(baseline))
  {
    match Decide(job, s, fs, baseline)
    case Nothing =>
    case FallBackToFull =>
      Backup.FullRunRetention(job, s, nowUtc, localNow);
    case TakeSnapshot(_) =>
      SnapshotCountsOne(job, s, fs, baseline, nowUtc, localNow);
      var c := SnapshotCounted(s, baseline, nowUtc);
      if job.value.retention.Some? && job.value.retention.value.count > 0 {
        PurgeBounds(c, job.value.retention.value.count);
      }
  }

  /** Package names stay unique and ordered whichever strategy runs. */
  lemma DispatchKeepsWellNamed(job: Option<BackupJob>, s: State, fs: FileSystem, nowUtc: Time, localNow: Time)
    requires job.Some? && Backup.WellNamed(job.value.id, s)
    ensures Backup.WellNamed(job.value.id, Dispatched(job, s, fs, nowUtc, localNow))
  {
    match job.value.backupMethod
    case Full => Backup.FullRunKeepsWellNamed(job, s, nowUtc, localNow);
    case Differential => SnapshotRunKeepsWellNamed(job, s, fs, PackageStart, nowUtc, localNow);
    case Incremental => SnapshotRunKeepsWellNamed(job, s, fs, PreviousSnapshot, nowUtc, localNow);
  }

  /** Every package stays within a positive snapshot cap whichever strategy runs. */
  lemma DispatchKeepsCap(job: Option<BackupJob>, s: State, fs: FileSystem, nowUtc: Time, localNow: Time)
    requires job.Some? && SnapshotLimit(job.value.retention) > 0
    requires CountsWithin(s.packages, SnapshotLimit(job.value.retention))
    ensures CountsWithin(Dispatched(job, s, fs, nowUtc, localNow).packages, SnapshotLimit(job.value.retention))
  {
    match job.value.backupMethod
    case Full =>
      if Runnable(job) {
        FullRunKeepsCap(job, s, nowUtc, localNow);
      }
    case Differential => SnapshotRunKeepsCap(job, s, fs, PackageStart, nowUtc, localNow);
    case Incremental => SnapshotRunKeepsCap(job, s, fs, PreviousSnapshot, nowUtc, localNow);
  }

  /**
   * PerformBackupIfDue: picks the strategy from the job's method and runs it.
   * The due check lies outside it, in the run's release-build gate, which
   * `Timing.IsJobDue` models; a run aborted by an unreadable directory leaves
   * the record as it was.
   */
  method PerformBackupIfDue(job: Option<BackupJob>, meta: JobsMetadata, fs: FileSystem, nowUtc: Time,
                            localNow: Time) returns (effects: seq<Backup.Effect>)
    modifies meta
    ensures meta.Value() == Dispatched(job, old(meta.Value()), fs, nowUtc, localNow)
    ensures effects == DispatchedEffects(job, old(meta.Value()), fs, nowUtc, localNow)
  {
    if job.None? {
      return [];
    }
    match job.value.backupMethod
    case Full =>
      effects := Backup.PerformBackup(job, meta, nowUtc, localNow);
    case Differential =>
      effects := PerformBackup(job, meta, fs, PackageStart, nowUtc, localNow);
    case Incremental =>
      effects := PerformBackup(job, meta, fs, PreviousSnapshot, nowUtc, localNow);
  }
}
