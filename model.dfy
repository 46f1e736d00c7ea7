/**
 * The value types the lifecycle engine works on: backup jobs, their retention
 * policy and method, and the package entries recorded in a job's state.
 */
module Model {
  import opened Wrappers

  /** An instant, as a DateTime tick count (100 ns units) within DateTime's range. */
  const TicksPerSecond: int := 10_000_000
  const MinTime: int := 0
  const MaxTime: int := 3_155_378_975_999_999_999
  type Time = t: int | MinTime <= t <= MaxTime

  datatype BackupMethod = Full | Differential | Incremental

  /** `count` is the number of packages to keep, `size` the snapshots allowed per package. */
  datatype BackupRetention = BackupRetention(count: int, size: int)

  /** A retention object created without explicit values keeps every package, one snapshot each. */
  const DefaultRetention: BackupRetention := BackupRetention(0, 1)

  /** A configured job; `None` stands for a null list, string or object. */
  datatype BackupJob = BackupJob(
    id: int,
    sources: Option<seq<string>>,
    targets: Option<seq<string>>,
    backupMethod: BackupMethod,
    timing: Option<string>,
    retention: Option<BackupRetention>)

  /** A package created for a job; a fresh entry has no snapshots yet. */
  datatype PackageEntry = PackageEntry(name: string, createdUtc: Time, snapshotCount: int)

  /** The characters for which .NET's char.IsWhiteSpace holds. */
  predicate IsWhiteSpace(c: char) {
    || ('\t' <= c <= '\r') || c == ' ' || c == '\U{0085}' || c == '\U{00A0}'
    || c == '\U{1680}' || ('\U{2000}' <= c <= '\U{200A}') || c == '\U{2028}'
    || c == '\U{2029}' || c == '\U{202F}' || c == '\U{205F}' || c == '\U{3000}'
  }

  predicate IsBlank(s: string) {
    forall i :: 0 <= i < |s| ==> IsWhiteSpace(s[i])
  }

  /** string.IsNullOrWhiteSpace. */
  predicate IsNullOrWhiteSpace(s: Option<string>) {
    s.None? || IsBlank(s.value)
  }

  /** A job whose run can do anything: present, with a source list and a target list. */
  predicate Runnable(job: Option<BackupJob>) {
    job.Some? && job.value.sources.Some? && job.value.targets.Some?
  }
}
