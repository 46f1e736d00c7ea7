/**
 * When a job is due. Two services share one rule and differ only in the cron
 * engine behind it: one uses Cronos (five-field expressions), the other
 * Quartz.NET. Both are called so that the answer lies strictly after the
 * search start; the properties below assume only the weaker never-earlier
 * behaviour, which `StrictNeverEarlier` derives from it. The engine is kept
 * abstract: a parser and a next-occurrence search, either of which may fail.
 */
module Timing {
  import opened Wrappers
  import opened Model
  import opened JobState
  import BackupService
  import BackupDifferential

  /** A cron engine: `parse` is `None` on a malformed expression, `next` is `None` when no occurrence exists. */
  datatype Engine<!E> = Engine(parse: string -> Option<E>, next: (E, Time) -> Option<Time>)

  /** The next occurrence is never before the search start: the hypothesis the properties assume. */
  ghost predicate NeverEarlier<E(!new)>(eng: Engine<E>) {
    forall e, t: Time :: eng.next(e, t).Some? ==> t <= eng.next(e, t).value
  }

  /** The next occurrence is strictly after the search start, as both engines answer. */
  ghost predicate StrictlyLater<E(!new)>(eng: Engine<E>) {
    forall e, t: Time :: eng.next(e, t).Some? ==> t < eng.next(e, t).value
  }

  /** DateTime.AddSeconds(1): `None` where the result would pass DateTime.MaxValue and the call throws. */
  function AddSecond(t: Time): (r: Option<Time>)
    ensures r.Some? <==> t <= MaxTime - TicksPerSecond
    ensures r.Some? ==> r.value - t == TicksPerSecond
  {
    if t + TicksPerSecond <= MaxTime then Some(t + TicksPerSecond) else None
  }

  /** jobMeta?.LastSnapshotTimestampUtc: a missing record reads as never run. */
  function LastRun(meta: Option<State>): Option<Time> {
    if meta.None? then None else meta.value.lastSnapshotTimestampUtc
  }

  /**
   * Where the due check starts searching: a year before now for a job never
   * run (or stamped DateTime.MinValue), else one second after its last run.
   * `yearBefore` is DateTime.AddYears(-1), `None` where it throws.
   */
  function SearchFrom(last: Option<Time>, nowUtc: Time, yearBefore: Time -> Option<Time>): Option<Time> {
    if last.None? || last.value == MinTime then yearBefore(nowUtc) else AddSecond(last.value)
  }

  /**
   * IsJobDue: no job is never due, a blank timing is always due; otherwise due
   * when an occurrence at or after the search start has come by now. Every
   * failure (parse error, date overflow) reads as not due.
   */
  function IsJobDue<E>(eng: Engine<E>, job: Option<BackupJob>, meta: Option<State>, nowUtc: Time,
                       yearBefore: Time -> Option<Time>): (due: bool)
    ensures job.None? ==> !due
    ensures job.Some? && IsNullOrWhiteSpace(job.value.timing) ==> due
  {
    if job.None? then false
    else if IsNullOrWhiteSpace(job.value.timing) then true
    else match eng.parse(job.value.timing.value)
      case None => false
      case Some(e) =>
        match SearchFrom(LastRun(meta), nowUtc, yearBefore)
        case None => false
        case Some(from) =>
          var next := eng.next(e, from);
          next.Some? && next.value <= nowUtc
  }

  /**
   * GetNextOccurrenceForJob: the first occurrence from one second after the
   * last run, or after `nowUtc` for a job never run; `None` for no job, a blank
   * timing or any failure.
   */
  function NextOccurrence<E>(eng: Engine<E>, job: Option<BackupJob>, meta: Option<State>, nowUtc: Time)
    : (r: Option<Time>)
    ensures job.None? || IsNullOrWhiteSpace(job.value.timing) ==> r.None?
  {
    if job.None? || IsNullOrWhiteSpace(job.value.timing) then None
    else match eng.parse(job.value.timing.value)
      case None => None
      case Some(e) =>
        match AddSecond(LastRun(meta).GetOr(nowUtc))
        case None => None
        case Some(from) => eng.next(e, from)
  }

  /** A timing neither engine can parse is never due and has no next occurrence. */
  lemma UnparsableNeverDue<E>(eng: Engine<E>, job: Option<BackupJob>, meta: Option<State>, nowUtc: Time,
                              yearBefore: Time -> Option<Time>)
    requires job.Some? && !IsNullOrWhiteSpace(job.value.timing) && eng.parse(job.value.timing.value).None?
    ensures !IsJobDue(eng, job, meta, nowUtc, yearBefore)
    ensures NextOccurrence(eng, job, meta, nowUtc).None?
  {
  }

  /** A last run stamped DateTime.MinValue counts as never run, for the due check only. */
  lemma MinValueIsNeverRun<E>(eng: Engine<E>, job: Option<BackupJob>, s: State, nowUtc: Time,
                              yearBefore: Time -> Option<Time>)
    requires s.lastSnapshotTimestampUtc == Some(MinTime)
    ensures IsJobDue(eng, job, Some(s), nowUtc, yearBefore) == IsJobDue(eng, job, None, nowUtc, yearBefore)
    ensures NextOccurrence(eng, job, Some(s), nowUtc) == NextOccurrence(eng, job, Some(s), MinTime)
  {
  }

  /** A strict engine is in particular one that never answers before the start. */
  lemma StrictNeverEarlier<E(!new)>(eng: Engine<E>)
    requires StrictlyLater(eng)
    ensures NeverEarlier(eng)
  {
    forall e, t: Time | eng.next(e, t).Some? ensures t <= eng.next(e, t).value {
      assert t < eng.next(e, t).value;
    }
  }

  /** Once a job that has run is due, it stays due as the clock moves on until it runs again. */
  lemma DueStaysDue<E>(eng: Engine<E>, job: Option<BackupJob>, meta: Option<State>, nowUtc: Time, later: Time,
                       yearBefore: Time -> Option<Time>)
    requires LastRun(meta).Some? && LastRun(meta).value != MinTime
    requires IsJobDue(eng, job, meta, nowUtc, yearBefore) && nowUtc <= later
    ensures IsJobDue(eng, job, meta, later, yearBefore)
  {
  }

  /**
   * A job whose last run is stamped `nowUtc` is not due again at `nowUtc` unless
   * its timing is blank: the search starts a second later and the engine never
   * answers before the start.
   */
  lemma JustRanNotDue<E(!new)>(eng: Engine<E>, job: Option<BackupJob>, s: State, nowUtc: Time,
                         yearBefore: Time -> Option<Time>)
    requires NeverEarlier(eng) && job.Some?
    requires s.lastSnapshotTimestampUtc == Some(nowUtc) && nowUtc != MinTime
    ensures IsJobDue(eng, job, Some(s), nowUtc, yearBefore) <==> IsNullOrWhiteSpace(job.value.timing)
  {
    if !IsNullOrWhiteSpace(job.value.timing) && eng.parse(job.value.timing.value).Some? {
      var e := eng.parse(job.value.timing.value).value;
      var from := AddSecond(nowUtc);
      if from.Some? && eng.next(e, from.value).Some? {
        assert from.value <= eng.next(e, from.value).value;
      }
    }
  }

  /**
   * After any run that changed the record, the job is not due again at the same
   * instant (with either engine), unless its timing is blank.
   */
  lemma RunThenNotDue<E(!new)>(eng: Engine<E>, job: Option<BackupJob>, s: State, fs: BackupDifferential.FileSystem,
                         nowUtc: Time, localNow: Time, yearBefore: Time -> Option<Time>)
    requires NeverEarlier(eng) && nowUtc != MinTime
    requires BackupService.Dispatched(job, s, fs, nowUtc, localNow) != s
    ensures var r := BackupService.Dispatched(job, s, fs, nowUtc, localNow);
      IsJobDue(eng, job, Some(r), nowUtc, yearBefore) <==> IsNullOrWhiteSpace(job.value.timing)
  {
    BackupService.DispatchRecordsMethod(job, s, fs, nowUtc, localNow);
    JustRanNotDue(eng, job, BackupService.Dispatched(job, s, fs, nowUtc, localNow), nowUtc, yearBefore);
  }

  /** The reported next occurrence lies strictly after the last run, or after now for a job never run. */
  lemma NextOccurrenceIsLater<E(!new)>(eng: Engine<E>, job: Option<BackupJob>, meta: Option<State>, nowUtc: Time)
    requires NeverEarlier(eng)
    ensures var r := NextOccurrence(eng, job, meta, nowUtc);
      r.Some? ==> r.value > LastRun(meta).GetOr(nowUtc)
  {
    var r := NextOccurrence(eng, job, meta, nowUtc);
    if r.Some? {
      var e := eng.parse(job.value.timing.value).value;
      var from := AddSecond(LastRun(meta).GetOr(nowUtc)).value;
      assert from <= eng.next(e, from).value;
    }
  }

  /**
   * For a job that has run (not at DateTime.MinValue) and has a timing, the due
   * check and the reported next occurrence agree: due exactly when that
   * occurrence has come.
   */
  lemma DueAgreesWithNextOccurrence<E>(eng: Engine<E>, job: Option<BackupJob>, meta: Option<State>,
                                       nowUtc: Time, yearBefore: Time -> Option<Time>)
    requires job.Some? && !IsNullOrWhiteSpace(job.value.timing)
    requires LastRun(meta).Some? && LastRun(meta).value != MinTime
    ensures var next := NextOccurrence(eng, job, meta, nowUtc);
      IsJobDue(eng, job, meta, nowUtc, yearBefore) <==> next.Some? && next.value <= nowUtc
  {
  }

  /** The ticks in a common (non-leap) year. */
  const TicksPerCommonYear: int := 365 * 24 * 60 * 60 * TicksPerSecond

  /**
   * For a job never run the two disagree: it can be due now while the reported
   * next occurrence lies in the future. The witness is an engine matching every
   * tick strictly after the search start, at 0003-01-01 00:00, where
   * AddYears(-1) gives 0002-01-01 00:00 (years 1 and 2 are common years).
   */
  lemma NeverRunDueButNextLater()
    ensures var eng: Engine<int> := Engine(_ => Some(0), (e, t: Time) => if t < MaxTime then Some(t + 1) else None);
      var job := Some(BackupJob(1, Some([]), Some([]), Full, Some("*"), None));
      var nowUtc: Time := 2 * TicksPerCommonYear;
      var yearBefore := (t: Time) => if t >= TicksPerCommonYear then Some(t - TicksPerCommonYear) else None;
      && StrictlyLater(eng)
      && IsJobDue(eng, job, None, nowUtc, yearBefore)
      && NextOccurrence(eng, job, None, nowUtc) == Some(nowUtc + TicksPerSecond + 1)
      && nowUtc < NextOccurrence(eng, job, None, nowUtc).value
  {
    assert !IsBlank("*") by {
      assert !IsWhiteSpace("*"[0]);
    }
  }
}
