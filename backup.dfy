/**
 * The full strategy (Backup.PerformBackup): open a new package, copy every
 * source into it under every target, count its first snapshot, then trim old
 * packages to the retention count. It is also the fallback of the snapshot
 * strategies.
 */
module Backup {
  import opened Wrappers
  import opened Model
  import opened Decimal
  import opened Paths
  import opened JobState

  /**
   * A filesystem operation a run performs when every operation succeeds. A
   * failure is logged and ends that target's remaining work (one `try` guards
   * each target), and the job's record is updated all the same.
   */
  datatype Effect =
    | CreateDirectory(path: string)
    | CopyPath(source: string, destination: string)  // a whole tree, or a single file
    | CopyFile(source: string, destination: string)
    | DeleteDirectory(path: string)                  // recursively, when it exists

  const FullBackupFolder: string := "fullBackup"

  /** The name of the package a job opens with counter value `index`. */
  function PackageName(id: int, index: int): string {
    "package_" + IntToString(id) + "_" + IntToString(index)
  }

  function PackagePrefix(id: int): string {
    "package_" + IntToString(id) + "_"
  }

  /** The counter value a package name of the job was made from. */
  function IndexOfName(id: int, name: string): int {
    var prefix := PackagePrefix(id);
    if |prefix| <= |name| then ParseInt(name[|prefix|..]) else 0
  }

  lemma IndexOfPackageName(id: int, index: int)
    ensures IndexOfName(id, PackageName(id, index)) == index
  {
    var name := PackageName(id, index);
    assert name[|PackagePrefix(id)|..] == IntToString(index);
    ParseIntToString(index);
  }

  /** Two counter values never give the same package name. */
  lemma PackageNameInjective(id: int, a: int, b: int)
    ensures PackageName(id, a) == PackageName(id, b) <==> a == b
  {
    IndexOfPackageName(id, a);
    IndexOfPackageName(id, b);
  }

  /**
   * Every package of the record is named for job `id`, the counter values in
   * the names rise from oldest to newest, and all lie below the record's counter.
   */
  ghost predicate WellNamed(id: int, s: State) {
    && (forall i :: 0 <= i < |s.packages| ==>
          s.packages[i].name == PackageName(id, IndexOfName(id, s.packages[i].name)))
    && (forall i :: 0 <= i < |s.packages| ==> IndexOfName(id, s.packages[i].name) < s.nextPackageIndex)
    && (forall i, j :: 0 <= i < j < |s.packages| ==>
          IndexOfName(id, s.packages[i].name) < IndexOfName(id, s.packages[j].name))
  }

  /** CreateNewPackageForJob's bookkeeping: `localNow` is its own DateTime.Now reading. */
  function WithNewPackage(s: State, id: int, localNow: Time): State {
    var added := Appended(s, PackageName(id, s.nextPackageIndex), localNow);
    added.(nextPackageIndex := s.nextPackageIndex + 1, lastPackageTimestampUtc := Some(localNow))
  }

  /** EnforceRetention's bookkeeping: only a positive count trims anything. */
  function Retained(retention: Option<BackupRetention>, s: State): State {
    if retention.None? || retention.value.count <= 0 then s else Purged(s, retention.value.count)
  }

  /** The names of the packages EnforceRetention drops. */
  function RetentionEvicted(retention: Option<BackupRetention>, s: State): seq<string> {
    if retention.None? || retention.value.count <= 0 then [] else Evicted(s, retention.value.count)
  }

  /** The record after a full run's new package and first snapshot, before retention. */
  function FullRunCounted(job: BackupJob, s: State, nowUtc: Time, localNow: Time): State {
    var created := WithNewPackage(s, job.id, localNow);
    var counted := Counted(created, PackageName(job.id, s.nextPackageIndex), nowUtc);
    counted.(lastSnapshotTimestampUtc := Some(nowUtc), lastPackageTimestampUtc := Some(nowUtc),
             lastMethod := Full)
  }

  /** The record after a full run that started at `nowUtc`. */
  function FullRun(job: Option<BackupJob>, s: State, nowUtc: Time, localNow: Time): State {
    if !Runnable(job) then s
    else Retained(job.value.retention, FullRunCounted(job.value, s, nowUtc, localNow))
  }

  /** The folder a source is copied to: its last segment once trailing separators are trimmed. */
  function SourceFolderName(source: string): string {
    FileName(TrimTrailingSeparators(source))
  }

  /** A source's folder name is one path segment: it holds no separator. */
  lemma SourceFolderIsSegment(source: string)
    ensures Separator !in SourceFolderName(source)
  {
    FileNameExact(TrimTrailingSeparators(source));
  }

  function FullBackupDirectory(target: string, package: string): string {
    Combine(Combine(target, package), FullBackupFolder)
  }

  function PackageDirectories(targets: seq<string>, package: string): (r: seq<Effect>) {
    seq(|targets|, i requires 0 <= i < |targets| => CreateDirectory(Combine(targets[i], package)))
  }

  /** The copies of the full run into one target's data folder; blank sources are skipped. */
  function SourceCopies(sources: seq<string>, dataDir: string): seq<Effect> {
    if sources == [] then []
    else
      var src := sources[|sources| - 1];
      SourceCopies(sources[..|sources| - 1], dataDir)
        + (if IsBlank(src) then [] else [CopyPath(src, Combine(dataDir, SourceFolderName(src)))])
  }

  function FullCopies(targets: seq<string>, sources: seq<string>, package: string): seq<Effect> {
    if targets == [] then []
    else
      var dataDir := FullBackupDirectory(targets[|targets| - 1], package);
      FullCopies(targets[..|targets| - 1], sources, package)
        + [CreateDirectory(dataDir)] + SourceCopies(sources, dataDir)
  }

  /** EnforceRetention deletes each dropped package, oldest first, under every target. */
  function Deletions(removed: seq<string>, targets: seq<string>): seq<Effect> {
    if removed == [] then []
    else
      var package := removed[|removed| - 1];
      Deletions(removed[..|removed| - 1], targets) + PackageDeletions(targets, package)
  }

  /** The deletions of one dropped package, one per target in order. */
  function PackageDeletions(targets: seq<string>, package: string): seq<Effect> {
    seq(|targets|, i requires 0 <= i < |targets| => DeleteDirectory(Combine(targets[i], package)))
  }

  /** The filesystem operations of a full run in which every operation succeeds, in order. */
  function FullRunEffects(job: Option<BackupJob>, s: State, nowUtc: Time, localNow: Time): seq<Effect> {
    if !Runnable(job) then []
    else
      var j := job.value;
      var package := PackageName(j.id, s.nextPackageIndex);
      PackageDirectories(j.targets.value, package)
        + FullCopies(j.targets.value, j.sources.value, package)
        + Deletions(RetentionEvicted(j.retention, FullRunCounted(j, s, nowUtc, localNow)), j.targets.value)
  }

  function Min(a: int, b: int): int {
    if a <= b then a else b
  }

  /** A run without a job, a source list or a target list changes nothing and touches no file. */
  lemma FullRunNeedsJob(job: Option<BackupJob>, s: State, nowUtc: Time, localNow: Time)
    requires !Runnable(job)
    ensures FullRun(job, s, nowUtc, localNow) == s
    ensures FullRunEffects(job, s, nowUtc, localNow) == []
  {
  }

  /**
   * Before retention, a full run has appended one package, named from the old
   * counter and holding one snapshot, moved the counter on by one, stamped both
   * timestamps with the run's clock and recorded the method Full.
   */
  lemma FullRunOpensPackage(job: BackupJob, s: State, nowUtc: Time, localNow: Time)
    ensures var r := FullRunCounted(job, s, nowUtc, localNow);
      && r.packages == s.packages + [PackageEntry(PackageName(job.id, s.nextPackageIndex), localNow, 1)]
      && r.nextPackageIndex == s.nextPackageIndex + 1
      && r.lastPackageTimestampUtc == Some(nowUtc)
      && r.lastSnapshotTimestampUtc == Some(nowUtc)
      && r.lastMethod == Full
  {
    var name := PackageName(job.id, s.nextPackageIndex);
    var created := WithNewPackage(s, job.id, localNow);
    var k := LastIndexNamed(created.packages, name);
    assert created.packages[|s.packages|].name == name;
    assert k == Some(|s.packages|);
  }

  /**
   * The whole full run. Without a positive keep-count the new package simply
   * joins the list; with keep-count k > 0 only the newest min(n + 1, k)
   * packages survive, in order. Either way the new package is the current one.
   */
  lemma FullRunRetention(job: Option<BackupJob>, s: State, nowUtc: Time, localNow: Time)
    requires Runnable(job)
    ensures var r := FullRun(job, s, nowUtc, localNow);
      var j := job.value;
      var newest := PackageEntry(PackageName(j.id, s.nextPackageIndex), localNow, 1);
      var all := s.packages + [newest];
      && r.nextPackageIndex == s.nextPackageIndex + 1
      && r.lastPackageTimestampUtc == Some(nowUtc)
      && r.lastSnapshotTimestampUtc == Some(nowUtc)
      && r.lastMethod == Full
      && (j.retention.None? || j.retention.value.count <= 0 ==> r.packages == all)
      && (j.retention.Some? && j.retention.value.count > 0 ==>
            |r.packages| == Min(|all|, j.retention.value.count)
            && r.packages == all[|all| - |r.packages|..])
      && |r.packages| > 0 && r.packages[|r.packages| - 1] == newest
  {
    FullRunOpensPackage(job.value, s, nowUtc, localNow);
  }

  /** The counter value of the package a full run opens is above that of every package it already has. */
  lemma NewPackageNameIsFresh(id: int, s: State)
    requires WellNamed(id, s)
    ensures PackageName(id, s.nextPackageIndex) !in Names(s.packages)
  {
    var name := PackageName(id, s.nextPackageIndex);
    IndexOfPackageName(id, s.nextPackageIndex);
    assert forall i :: 0 <= i < |s.packages| ==> Names(s.packages)[i] != name;
  }

  /** No two packages of a well-named record share a name. */
  lemma WellNamedDistinct(id: int, s: State)
    requires WellNamed(id, s)
    ensures forall i, j :: 0 <= i < j < |s.packages| ==> s.packages[i].name != s.packages[j].name
  {
  }

  lemma CreatedWellNamed(job: BackupJob)
    ensures WellNamed(job.id, Created(job))
  {
  }

  /** Being well named depends only on the names, in order, and the counter. */
  lemma SameNamesWellNamed(id: int, s: State, t: State)
    requires WellNamed(id, s) && t.nextPackageIndex == s.nextPackageIndex
    requires |t.packages| == |s.packages|
    requires forall i :: 0 <= i < |s.packages| ==> t.packages[i].name == s.packages[i].name
    ensures WellNamed(id, t)
  {
    forall i | 0 <= i < |t.packages|
      ensures t.packages[i].name == PackageName(id, IndexOfName(id, t.packages[i].name))
      ensures IndexOfName(id, t.packages[i].name) < t.nextPackageIndex
    {
      assert t.packages[i].name == s.packages[i].name;
    }
    forall i, j | 0 <= i < j < |t.packages|
      ensures IndexOfName(id, t.packages[i].name) < IndexOfName(id, t.packages[j].name)
    {
      assert t.packages[i].name == s.packages[i].name;
      assert t.packages[j].name == s.packages[j].name;
    }
  }

  /** Trimming keeps a suffix of the list, so it keeps the names well formed. */
  lemma PurgeKeepsWellNamed(id: int, s: State, keep: int)
    requires WellNamed(id, s)
    ensures WellNamed(id, Purged(s, keep))
  {
    var n := ToRemove(|s.packages|, keep);
    var r := Purged(s, keep);
    assert forall i :: 0 <= i < |r.packages| ==> r.packages[i] == s.packages[n + i];
  }

  /** Appending the package named for the counter, and moving the counter past it, keeps the record well named. */
  lemma NewPackageKeepsWellNamed(id: int, s: State, t: State)
    requires WellNamed(id, s) && |t.packages| == |s.packages| + 1
    requires t.packages[..|s.packages|] == s.packages
    requires t.packages[|s.packages|].name == PackageName(id, s.nextPackageIndex)
    requires t.nextPackageIndex == s.nextPackageIndex + 1
    ensures WellNamed(id, t)
  {
    var n := |s.packages|;
    var c := s.nextPackageIndex;
    IndexOfPackageName(id, c);
    forall i | 0 <= i < n ensures t.packages[i] == s.packages[i] {
      assert t.packages[i] == t.packages[..n][i];
    }
    forall i | 0 <= i < |t.packages|
      ensures t.packages[i].name == PackageName(id, IndexOfName(id, t.packages[i].name))
      ensures IndexOfName(id, t.packages[i].name) < t.nextPackageIndex
    {
      if i == n {
        assert IndexOfName(id, t.packages[i].name) == c;
      }
    }
    forall i, j | 0 <= i < j < |t.packages|
      ensures IndexOfName(id, t.packages[i].name) < IndexOfName(id, t.packages[j].name)
    {
      if j == n {
        assert IndexOfName(id, t.packages[i].name) < c == IndexOfName(id, t.packages[j].name);
      }
    }
  }

  /** Package names are never reused: a full run keeps the record well named. */
  lemma FullRunKeepsWellNamed(job: Option<BackupJob>, s: State, nowUtc: Time, localNow: Time)
    requires job.Some? && WellNamed(job.value.id, s)
    ensures WellNamed(job.value.id, FullRun(job, s, nowUtc, localNow))
  {
    if Runnable(job) {
      var j := job.value;
      var c := FullRunCounted(j, s, nowUtc, localNow);
      FullRunOpensPackage(j, s, nowUtc, localNow);
      NewPackageKeepsWellNamed(j.id, s, c);
      if j.retention.Some? && j.retention.value.count > 0 {
        PurgeKeepsWellNamed(j.id, c, j.retention.value.count);
      }
    }
  }

  /**
   * The copies into a data folder are exactly one per non-blank source, each
   * into the folder named after that source.
   */
  lemma {:induction false} SourceCopiesExact(sources: seq<string>, dataDir: string, e: Effect)
    ensures e in SourceCopies(sources, dataDir) <==>
      exists src :: src in sources && !IsBlank(src) && e == CopyPath(src, Combine(dataDir, SourceFolderName(src)))
  {
    if sources != [] {
      var init := sources[..|sources| - 1];
      var last := sources[|sources| - 1];
      SourceCopiesExact(init, dataDir, e);
      assert sources == init + [last];
      var copy := CopyPath(last, Combine(dataDir, SourceFolderName(last)));
      var before := SourceCopies(init, dataDir);
      var mine := if IsBlank(last) then [] else [copy];
      assert SourceCopies(sources, dataDir) == before + mine;
      if e in before {
        var src :| src in init && !IsBlank(src) && e == CopyPath(src, Combine(dataDir, SourceFolderName(src)));
        assert src in sources;
      } else if e in mine {
        assert last in sources;
      }
      if exists src :: src in sources && !IsBlank(src) && e == CopyPath(src, Combine(dataDir, SourceFolderName(src))) {
        var src :| src in sources && !IsBlank(src) && e == CopyPath(src, Combine(dataDir, SourceFolderName(src)));
        if src == last {
          assert e in mine;
        } else {
          assert src in init;
          assert e in before;
        }
      }
    }
  }

  /** Retention deletes exactly the dropped packages, each under every target. */
  lemma {:induction false} DeletionsExact(removed: seq<string>, targets: seq<string>, e: Effect)
    ensures e in Deletions(removed, targets) <==>
      exists p, t :: p in removed && t in targets && e == DeleteDirectory(Combine(t, p))
  {
    if removed != [] {
      var init := removed[..|removed| - 1];
      var last := removed[|removed| - 1];
      DeletionsExact(init, targets, e);
      assert removed == init + [last];
      var row := PackageDeletions(targets, last);
      assert e in row <==> exists t :: t in targets && e == DeleteDirectory(Combine(t, last)) by {
        if e in row {
          var i :| 0 <= i < |row| && row[i] == e;
          assert targets[i] in targets;
        }
        if exists t :: t in targets && e == DeleteDirectory(Combine(t, last)) {
          var t :| t in targets && e == DeleteDirectory(Combine(t, last));
          var i :| 0 <= i < |targets| && targets[i] == t;
          assert row[i] == e;
        }
      }
    }
  }

  lemma PackageDeletionsSnoc(targets: seq<string>, t: string, package: string)
    ensures PackageDeletions(targets + [t], package)
      == PackageDeletions(targets, package) + [DeleteDirectory(Combine(t, package))]
  {
  }

  method CreateNewPackageForJob(job: BackupJob, meta: JobsMetadata, localNow: Time)
    returns (effects: seq<Effect>)
    requires job.targets.Some?
    modifies meta
    ensures meta.Value() == WithNewPackage(old(meta.Value()), job.id, localNow)
    ensures effects == PackageDirectories(job.targets.value, PackageName(job.id, old(meta.nextPackageIndex)))
  {
    var pkgIndex := meta.nextPackageIndex;
    var packageBase := PackageName(job.id, pkgIndex);
    var targets := job.targets.value;
    effects := [];
    for i := 0 to |targets|
      invariant effects == PackageDirectories(targets[..i], packageBase)
    {
      effects := effects + [CreateDirectory(Combine(targets[i], packageBase))];
    }
    assert targets[..|targets|] == targets;
    meta.AddPackage(packageBase, localNow);
    meta.nextPackageIndex := meta.nextPackageIndex + 1;
    meta.lastPackageTimestampUtc := Some(localNow);
  }

  method EnforceRetention(job: BackupJob, meta: JobsMetadata) returns (effects: seq<Effect>)
    requires job.targets.Some?
    modifies meta
    ensures meta.Value() == Retained(job.retention, old(meta.Value()))
    ensures effects == Deletions(RetentionEvicted(job.retention, old(meta.Value())), job.targets.value)
  {
    effects := [];
    if job.retention.None? {
      return;
    }
    var keep := job.retention.value.count;
    if keep <= 0 {
      return;
    }
    var removed := meta.PurgeOldPackages(keep);
    var targets := job.targets.value;
    for k := 0 to |removed|
      invariant effects == Deletions(removed[..k], targets)
      modifies {}
    {
      for t := 0 to |targets|
        modifies {}
        invariant effects == Deletions(removed[..k], targets) + PackageDeletions(targets[..t], removed[k])
      {
        PackageDeletionsSnoc(targets[..t], targets[t], removed[k]);
        assert targets[..t + 1] == targets[..t] + [targets[t]];
        effects := effects + [DeleteDirectory(Combine(targets[t], removed[k]))];
      }
      assert targets[..|targets|] == targets;
      assert removed[..k + 1][..k] == removed[..k];
    }
    assert removed[..|removed|] == removed;
  }

  /** The copy loop of a full run: every target gets the data folder, then each source copied into it. */
  method CopyIntoTargets(targets: seq<string>, sources: seq<string>, package: string)
    returns (effects: seq<Effect>)
    ensures effects == FullCopies(targets, sources, package)
  {
    effects := [];
    for t := 0 to |targets|
      invariant effects == FullCopies(targets[..t], sources, package)
    {
      var dataDir := FullBackupDirectory(targets[t], package);
      var copies := CopySources(sources, dataDir);
      effects := effects + [CreateDirectory(dataDir)] + copies;
      assert targets[..t + 1][..t] == targets[..t];
    }
    assert targets[..|targets|] == targets;
  }

  /** The copies into one target's data folder; blank sources are skipped. */
  method CopySources(sources: seq<string>, dataDir: string) returns (effects: seq<Effect>)
    ensures effects == SourceCopies(sources, dataDir)
  {
    effects := [];
    for k := 0 to |sources|
      invariant effects == SourceCopies(sources[..k], dataDir)
    {
      var src := sources[k];
      assert sources[..k + 1][..k] == sources[..k];
      if IsBlank(src) {
        continue;
      }
      effects := effects + [CopyPath(src, Combine(dataDir, SourceFolderName(src)))];
    }
    assert sources[..|sources|] == sources;
  }

  /** Backup.PerformBackup: `nowUtc` is the run's UTC clock, `localNow` the package's creation clock. */
  method PerformBackup(job: Option<BackupJob>, meta: JobsMetadata, nowUtc: Time, localNow: Time)
    returns (effects: seq<Effect>)
    modifies meta
    ensures meta.Value() == FullRun(job, old(meta.Value()), nowUtc, localNow)
    ensures effects == FullRunEffects(job, old(meta.Value()), nowUtc, localNow)
  {
    if job.None? || job.value.targets.None? || job.value.sources.None? {
      return [];
    }
    var j := job.value;
    ghost var s0 := meta.Value();
    effects := CreateNewPackageForJob(j, meta, localNow);
    var current := meta.GetCurrentPackage();
    if current.None? {
      return;
    }
    var name := current.value.name;
    assert name == PackageName(j.id, s0.nextPackageIndex);
    var copies := CopyIntoTargets(j.targets.value, j.sources.value, name);
    effects := effects + copies;
    meta.IncrementSnapshotCount(name, nowUtc);
    meta.lastSnapshotTimestampUtc := Some(nowUtc);
    meta.lastPackageTimestampUtc := Some(nowUtc);
    meta.lastMethod := Full;
    assert meta.Value() == FullRunCounted(j, s0, nowUtc, localNow);
    var deletions := EnforceRetention(j, meta);
    effects := effects + deletions;
  }
}
