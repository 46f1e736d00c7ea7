/**
 * A job's lifecycle record (JobsMetadata): the ordered package list, oldest
 * first, the package counter, the two timestamps and the last method used.
 * `State` is the record as a value; the class `JobsMetadata` holds it in
 * fields that its methods update in place.
 */
module JobState {
  import opened Wrappers
  import opened Model

  datatype State = State(
    nextPackageIndex: int,
    lastPackageTimestampUtc: Option<Time>,
    lastSnapshotTimestampUtc: Option<Time>,
    lastMethod: BackupMethod,
    packages: seq<PackageEntry>)

  /** The record LoadOrCreateForJob makes for a job with no saved state. */
  function Created(job: BackupJob): State {
    State(0, None, None, job.backupMethod, [])
  }

  function Names(ps: seq<PackageEntry>): (r: seq<string>) {
    seq(|ps|, i requires 0 <= i < |ps| => ps[i].name)
  }

  /** The newest package, if there is one. */
  function Current(ps: seq<PackageEntry>): (r: Option<PackageEntry>) {
    if ps == [] then None else Some(ps[|ps| - 1])
  }

  /** The position of the last package called `name` (LastOrDefault with a name test). */
  function LastIndexNamed(ps: seq<PackageEntry>, name: string): (r: Option<nat>)
    ensures r.Some? ==> r.value < |ps|
  {
    if ps == [] then None
    else if ps[|ps| - 1].name == name then Some(|ps| - 1)
    else LastIndexNamed(ps[..|ps| - 1], name)
  }

  /** No index exactly when no entry has the name; otherwise an entry with the name after which none has it. */
  lemma {:induction false} LastIndexNamedExact(ps: seq<PackageEntry>, name: string)
    ensures var r := LastIndexNamed(ps, name);
      && (r.None? <==> forall j :: 0 <= j < |ps| ==> ps[j].name != name)
      && (r.Some? ==> ps[r.value].name == name && forall j :: r.value < j < |ps| ==> ps[j].name != name)
  {
    if ps != [] && ps[|ps| - 1].name != name {
      var init := ps[..|ps| - 1];
      LastIndexNamedExact(init, name);
      assert forall j :: 0 <= j < |init| ==> init[j] == ps[j];
    }
  }

  /** The entry IncrementSnapshotCount bumps: the last one called `name`, else the last one. */
  function CountTarget(ps: seq<PackageEntry>, name: string): Option<nat> {
    match LastIndexNamed(ps, name)
    case Some(k) => Some(k)
    case None => if ps == [] then None else Some(|ps| - 1)
  }

  /** AddPackage: a new entry with no snapshots goes at the end. */
  function Appended(s: State, name: string, createdUtc: Time): State {
    s.(packages := s.packages + [PackageEntry(name, createdUtc, 0)],
       lastPackageTimestampUtc := Some(createdUtc))
  }

  /** IncrementSnapshotCount: one more snapshot in the target entry, stamped `nowUtc`. */
  function Counted(s: State, name: string, nowUtc: Time): State {
    match CountTarget(s.packages, name)
    case None => s
    case Some(k) =>
      var p := s.packages[k];
      s.(packages := s.packages[k := p.(snapshotCount := p.snapshotCount + 1)],
         lastSnapshotTimestampUtc := Some(nowUtc))
  }

  /** How many of `count` packages PurgeOldPackages drops to keep `keep`. */
  function ToRemove(count: nat, keep: int): nat {
    if keep <= 0 || count <= keep then 0 else count - keep
  }

  /** PurgeOldPackages' new record: the oldest entries are dropped. */
  function Purged(s: State, keep: int): State {
    s.(packages := s.packages[ToRemove(|s.packages|, keep)..])
  }

  /** PurgeOldPackages' result: the names of the dropped entries, oldest first. */
  function Evicted(s: State, keep: int): seq<string> {
    Names(s.packages[..ToRemove(|s.packages|, keep)])
  }

  lemma NamesAppend(a: seq<PackageEntry>, b: seq<PackageEntry>)
    ensures Names(a + b) == Names(a) + Names(b)
  {
  }

  /** A purge with nothing to trim removes nothing and changes nothing. */
  lemma PurgeWithinLimit(s: State, keep: int)
    requires keep <= 0 || |s.packages| <= keep
    ensures Evicted(s, keep) == [] && Purged(s, keep) == s
  {
    assert ToRemove(|s.packages|, keep) == 0;
    assert s.packages[0..] == s.packages;
    assert |Evicted(s, keep)| == 0;
  }

  /** Otherwise exactly `keep` packages survive: the newest ones, in their old order. */
  lemma PurgeKeepsNewest(s: State, keep: int)
    requires 0 < keep < |s.packages|
    ensures |Purged(s, keep).packages| == keep
    ensures Purged(s, keep).packages == s.packages[|s.packages| - keep..]
    ensures |Evicted(s, keep)| == |s.packages| - keep
  {
  }

  /** The evicted names followed by the surviving names are the old names: nothing lost or reordered. */
  lemma PurgeLosesNothing(s: State, keep: int)
    ensures Evicted(s, keep) + Names(Purged(s, keep).packages) == Names(s.packages)
  {
    var n := ToRemove(|s.packages|, keep);
    assert s.packages == s.packages[..n] + s.packages[n..];
    NamesAppend(s.packages[..n], s.packages[n..]);
  }

  /** A purge never leaves more than `keep` packages when `keep` is positive, and touches nothing but the list. */
  lemma PurgeBounds(s: State, keep: int)
    ensures keep > 0 ==> |Purged(s, keep).packages| <= keep
    ensures |Purged(s, keep).packages| <= |s.packages|
    ensures Purged(s, keep).(packages := s.packages) == s
  {
  }

  /** On an empty list IncrementSnapshotCount changes nothing. */
  lemma CountedEmpty(s: State, name: string, nowUtc: Time)
    requires s.packages == []
    ensures Counted(s, name, nowUtc) == s
  {
  }

  /** Counting a snapshot renames no entry and leaves the counter alone. */
  lemma CountedSameNames(s: State, name: string, nowUtc: Time)
    ensures |Counted(s, name, nowUtc).packages| == |s.packages|
    ensures forall i :: 0 <= i < |s.packages| ==> Counted(s, name, nowUtc).packages[i].name == s.packages[i].name
    ensures Counted(s, name, nowUtc).nextPackageIndex == s.nextPackageIndex
  {
  }

  /**
   * On a non-empty list IncrementSnapshotCount raises exactly one entry's count
   * by one: the last entry called `name`, or the last entry when none is.
   */
  lemma CountedBumpsOne(s: State, name: string, nowUtc: Time)
    requires s.packages != []
    ensures var r := Counted(s, name, nowUtc);
      var k := CountTarget(s.packages, name).value;
      && k < |s.packages|
      && (if name in Names(s.packages) then s.packages[k].name == name
            && forall j :: k < j < |s.packages| ==> s.packages[j].name != name
          else k == |s.packages| - 1)
      && |r.packages| == |s.packages|
      && r.packages[k] == s.packages[k].(snapshotCount := s.packages[k].snapshotCount + 1)
      && (forall j :: 0 <= j < |s.packages| && j != k ==> r.packages[j] == s.packages[j])
      && r == s.(packages := r.packages, lastSnapshotTimestampUtc := Some(nowUtc))
  {
    LastIndexNamedExact(s.packages, name);
    var ns := Names(s.packages);
    if name in ns {
      var i :| 0 <= i < |ns| && ns[i] == name;
      assert s.packages[i].name == name;
    } else {
      forall j | 0 <= j < |s.packages| ensures s.packages[j].name != name {
        assert ns[j] == s.packages[j].name;
      }
    }
  }

  /** The record of one job, updated in place by the backup strategies. */
  class JobsMetadata {
    var nextPackageIndex: int
    var lastPackageTimestampUtc: Option<Time>
    var lastSnapshotTimestampUtc: Option<Time>
    var lastMethod: BackupMethod
    var packages: seq<PackageEntry>

    function Value(): State
      reads this
    {
      State(nextPackageIndex, lastPackageTimestampUtc, lastSnapshotTimestampUtc, lastMethod, packages)
    }

    /** The record of a job seen for the first time. */
    constructor (job: BackupJob)
      ensures Value() == Created(job)
    {
      nextPackageIndex := 0;
      lastPackageTimestampUtc := None;
      lastSnapshotTimestampUtc := None;
      lastMethod := job.backupMethod;
      packages := [];
    }

    /** A record read back from storage. */
    constructor Loaded(s: State)
      ensures Value() == s
    {
      nextPackageIndex := s.nextPackageIndex;
      lastPackageTimestampUtc := s.lastPackageTimestampUtc;
      lastSnapshotTimestampUtc := s.lastSnapshotTimestampUtc;
      lastMethod := s.lastMethod;
      packages := s.packages;
    }

    method AddPackage(packageName: string, createdUtc: Time)
      modifies this
      ensures packages == old(packages) + [PackageEntry(packageName, createdUtc, 0)]
      ensures lastPackageTimestampUtc == Some(createdUtc)
      ensures Value() == Appended(old(Value()), packageName, createdUtc)
    {
      packages := packages + [PackageEntry(packageName, createdUtc, 0)];
      lastPackageTimestampUtc := Some(createdUtc);
    }

    /** `nowUtc` is the clock reading the method takes for the snapshot timestamp. */
    method IncrementSnapshotCount(packageName: string, nowUtc: Time)
      modifies this
      ensures old(packages) == [] ==> unchanged(this)
      ensures Value() == Counted(old(Value()), packageName, nowUtc)
    {
      var target := CountTarget(packages, packageName);
      if target.Some? {
        var p := packages[target.value];
        packages := packages[target.value := p.(snapshotCount := p.snapshotCount + 1)];
        lastSnapshotTimestampUtc := Some(nowUtc);
      }
    }

    method GetCurrentPackage() returns (current: Option<PackageEntry>)
      ensures current.None? <==> packages == []
      ensures current.Some? ==> current.value == packages[|packages| - 1]
    {
      if |packages| == 0 {
        return None;
      }
      return Some(packages[|packages| - 1]);
    }

    method PurgeOldPackages(keep: int) returns (removed: seq<string>)
      modifies this
      ensures removed == Evicted(old(Value()), keep)
      ensures Value() == Purged(old(Value()), keep)
      ensures removed + Names(packages) == Names(old(packages))
    {
      if keep <= 0 {
        return [];
      }
      if |packages| <= keep {
        return [];
      }
      var toRemove := |packages| - keep;
      removed := Names(packages[..toRemove]);
      PurgeLosesNothing(Value(), keep);
      packages := packages[toRemove..];
    }
  }
}
