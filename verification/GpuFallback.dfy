/**
 The GPU-crash fallback: a marker file that outlives the session, written after
 repeated GPU-process crashes, read at launch, and removed by a clean session.
 Times are milliseconds; the marker's ISO timestamps are their numbers.
 */
module GpuFallback {
  import opened Text

  const THRESHOLD: nat := 2
  const EXPIRY_MS: nat := 7 * 24 * 60 * 60 * 1000

  datatype Marker = Marker(crashes: nat, firstCrashAt: nat, lastCrashAt: nat, expiresAt: nat)

  /** The marker file: absent, present but not a marker, or a marker. */
  datatype MarkerFile = Absent | Unusable | Stored(marker: Marker)

  /** An expired or unusable file reads as no marker. */
  function Read(file: MarkerFile, now: nat): Option<Marker> {
    if file.Stored? && file.marker.expiresAt > now then Some(file.marker) else None
  }

  /** The marker written for the crash at `now`, the `count`-th of its session. */
  function NewMarker(file: MarkerFile, count: nat, now: nat): Marker {
    var existing := Read(file, now);
    Marker(
      Max(count, if existing.Some? then existing.value.crashes else 0),
      if existing.Some? then existing.value.firstCrashAt else now,
      now,
      now + EXPIRY_MS)
  }

  function Recorded(file: MarkerFile, count: nat, now: nat): MarkerFile {
    if count < THRESHOLD then file else Stored(NewMarker(file, count, now))
  }

  //// The program: the persisted file and one session at a time.

  class Store {
    var file: MarkerFile

    constructor (file: MarkerFile)
      ensures this.file == file
    {
      this.file := file;
    }

    /** Records crashes past the threshold; a failed write leaves the file as it was. */
    method RecordGpuCrashes(count: nat, now: nat, writable: bool) returns (marker: Option<Marker>)
      modifies this
      ensures file == if writable then Recorded(old(file), count, now) else old(file)
      ensures marker.Some? <==> count >= THRESHOLD && writable
      ensures marker.Some? ==> file == Stored(marker.value) && Read(file, now) == marker
    {
      if count < THRESHOLD {
        return None;
      }
      var m := NewMarker(file, count, now);
      if !writable {
        return None;
      }
      file := Stored(m);
      marker := Some(m);
    }

    /** Removes the file if there is one; a removal that fails leaves it. */
    method ClearGpuFallbackMarker(removable: bool) returns (removed: bool)
      modifies this
      ensures file == if removable then Absent else old(file)
      ensures removed == (removable && !old(file).Absent?)
    {
      if file.Absent? || !removable {
        return false;
      }
      file := Absent;
      removed := true;
    }
  }

  /** When a GPU process went away, whether it crashed, and whether the marker could then be written. */
  datatype Gone = Gone(at: nat, crashed: bool, writable: bool)

  class Session {
    const store: Store
    const active: bool
    var gpuCrashCount: nat

    /** Launch: the fallback is decided once, from the marker at that moment. */
    constructor (store: Store, now: nat)
      ensures this.store == store && active == Read(store.file, now).Some? && gpuCrashCount == 0
    {
      this.store := store;
      active := Read(store.file, now).Some?;
      gpuCrashCount := 0;
    }

    method GpuProcessGone(gone: Gone)
      modifies this, store
      ensures gpuCrashCount == old(gpuCrashCount) + (if gone.crashed then 1 else 0)
      ensures store.file == AfterGone(old(store.file), !active, old(gpuCrashCount), gone)
    {
      if gone.crashed {
        gpuCrashCount := gpuCrashCount + 1;
      }
      if !active && gone.crashed {
        var _ := store.RecordGpuCrashes(gpuCrashCount, gone.at, gone.writable);
      }
    }

    method WillQuit(removable: bool)
      modifies store
      ensures store.file == AfterQuit(old(store.file), !active, gpuCrashCount, removable)
    {
      if active || gpuCrashCount > 0 {
        return;
      }
      var _ := store.ClearGpuFallbackMarker(removable);
    }
  }

  function AfterGone(file: MarkerFile, hardware: bool, count: nat, gone: Gone): MarkerFile {
    if hardware && gone.crashed && gone.writable then Recorded(file, count + 1, gone.at) else file
  }

  function AfterQuit(file: MarkerFile, hardware: bool, count: nat, removable: bool): MarkerFile {
    if hardware && count == 0 && removable then Absent else file
  }

  //// Histories of sessions.

  /**
   A session: its launch, its GPU-process exits, whether it ended through the
   quit handler, and whether that could remove the marker.
   */
  datatype Life = Life(launchedAt: nat, gone: seq<Gone>, quits: bool, removable: bool)

  function CrashCount(gone: seq<Gone>): nat {
    if gone == [] then 0
    else CrashCount(gone[..|gone| - 1]) + (if gone[|gone| - 1].crashed then 1 else 0)
  }

  function FileAfterGone(file: MarkerFile, hardware: bool, gone: seq<Gone>): MarkerFile {
    if gone == [] then file
    else
      var front := gone[..|gone| - 1];
      AfterGone(FileAfterGone(file, hardware, front), hardware, CrashCount(front), gone[|gone| - 1])
  }

  predicate Hardware(file: MarkerFile, launchedAt: nat) {
    Read(file, launchedAt).None?
  }

  function FileAfterLife(file: MarkerFile, life: Life): MarkerFile {
    var hardware := Hardware(file, life.launchedAt);
    var ended := FileAfterGone(file, hardware, life.gone);
    if life.quits then AfterQuit(ended, hardware, CrashCount(life.gone), life.removable) else ended
  }

  function FileAfter(file: MarkerFile, lives: seq<Life>): MarkerFile {
    if lives == [] then file else FileAfterLife(FileAfter(file, lives[..|lives| - 1]), lives[|lives| - 1])
  }

  /** The loop a whole session makes on the object is the life of the specification. */
  method Live(store: Store, life: Life)
    modifies store
    ensures store.file == FileAfterLife(old(store.file), life)
  {
    var session := new Session(store, life.launchedAt);
    for i := 0 to |life.gone|
      invariant session.store == store && fresh(session)
      invariant session.active == !Hardware(old(store.file), life.launchedAt)
      invariant session.gpuCrashCount == CrashCount(life.gone[..i])
      invariant store.file == FileAfterGone(old(store.file), !session.active, life.gone[..i])
    {
      assert life.gone[..i + 1][..i] == life.gone[..i];
      session.GpuProcessGone(life.gone[i]);
    }
    assert life.gone[..|life.gone|] == life.gone;
    if life.quits {
      session.WillQuit(life.removable);
    }
  }

  /** The clock does not run backwards within a session. */
  predicate Ordered(life: Life) {
    && (forall j :: 0 <= j < |life.gone| ==> life.launchedAt <= life.gone[j].at)
    && (forall j, k :: 0 <= j < k < |life.gone| ==> life.gone[j].at <= life.gone[k].at)
  }

  /** Nothing in the session happens after t. */
  predicate Before(life: Life, t: nat) {
    life.launchedAt <= t && forall j :: 0 <= j < |life.gone| ==> life.gone[j].at <= t
  }

  /** The clock does not run backwards, and sessions do not overlap. */
  predicate OrderedLives(lives: seq<Life>, start: nat) {
    && (forall i :: 0 <= i < |lives| ==> Ordered(lives[i]) && start <= lives[i].launchedAt)
    && (forall i, k :: 0 <= i < k < |lives| ==> Before(lives[i], lives[k].launchedAt))
  }

  /** Exit j of the session is a crash, at least the second one, and was recorded. */
  predicate Qualifies(gone: seq<Gone>, j: nat)
    requires j < |gone|
  {
    gone[j].crashed && gone[j].writable && CrashCount(gone[..j + 1]) >= 2
  }

  /** Session i ran on hardware. */
  predicate RanOnHardware(file: MarkerFile, lives: seq<Life>, i: nat)
    requires i < |lives|
  {
    Hardware(FileAfter(file, lives[..i]), lives[i].launchedAt)
  }

  /** Crash j of session i arms the fallback for a launch at t. */
  predicate Arms(file: MarkerFile, lives: seq<Life>, i: nat, j: nat, t: nat)
    requires i < |lives| && j < |lives[i].gone|
  {
    RanOnHardware(file, lives, i) && Qualifies(lives[i].gone, j) && t < lives[i].gone[j].at + EXPIRY_MS
  }

  //// One session.

  lemma ExpiredStays(file: MarkerFile, now: nat, later: nat)
    requires now <= later && Read(file, now).None?
    ensures Read(file, later).None?
  {
  }

  predicate WellFormed(m: Marker) {
    m.crashes >= 2 && m.firstCrashAt <= m.lastCrashAt && m.expiresAt == m.lastCrashAt + EXPIRY_MS
  }

  predicate FileWellFormed(file: MarkerFile) {
    file.Stored? ==> WellFormed(file.marker)
  }

  /** Every marker on disk has at least two crashes, ordered times and the seven-day expiry. */
  lemma {:induction false} MarkersWellFormed(file: MarkerFile, lives: seq<Life>, start: nat)
    requires FileWellFormed(file) && OrderedLives(lives, start)
    requires file.Stored? ==> file.marker.lastCrashAt <= start
    ensures FileWellFormed(FileAfter(file, lives))
    ensures FileAfter(file, lives).Stored? ==> FileAfter(file, lives).marker.lastCrashAt <= EndOf(lives, start)
    decreases |lives|
  {
    if lives != [] {
      var front, life := lives[..|lives| - 1], lives[|lives| - 1];
      MarkersWellFormed(file, front, start);
      if front != [] {
        assert Before(lives[|front| - 1], life.launchedAt);
      }
      GoneWellFormed(FileAfter(file, front), Hardware(FileAfter(file, front), life.launchedAt), life.gone,
                     life.launchedAt);
    }
  }

  /** The last moment of the history. */
  function EndOf(lives: seq<Life>, start: nat): nat {
    if lives == [] then start
    else
      var life := lives[|lives| - 1];
      if life.gone == [] then life.launchedAt else life.gone[|life.gone| - 1].at
  }

  lemma {:induction false} GoneWellFormed(file: MarkerFile, hardware: bool, gone: seq<Gone>, start: nat)
    requires FileWellFormed(file) && Ordered(Life(start, gone, false, false))
    requires file.Stored? ==> file.marker.lastCrashAt <= start
    ensures var f := FileAfterGone(file, hardware, gone);
            && FileWellFormed(f)
            && (f.Stored? ==> f.marker.lastCrashAt <= if gone == [] then start else gone[|gone| - 1].at)
    decreases |gone|
  {
    if gone != [] {
      var front := gone[..|gone| - 1];
      assert Ordered(Life(start, front, false, false));
      GoneWellFormed(file, hardware, front, start);
      assert front != [] ==> gone[|front| - 1].at <= gone[|gone| - 1].at;
    }
  }

  /** Whether some recorded crash of the session, the second or later, is less than seven days before t. */
  ghost predicate SessionArms(gone: seq<Gone>, t: nat) {
    exists j :: 0 <= j < |gone| && Qualifies(gone, j) && t < gone[j].at + EXPIRY_MS
  }

  lemma QualifiesInPrefix(gone: seq<Gone>, j: nat, n: nat)
    requires j < n <= |gone|
    ensures Qualifies(gone[..n], j) == Qualifies(gone, j)
  {
    assert gone[..n][..j + 1] == gone[..j + 1];
  }

  /** The latest crash decides if it qualifies, being the one to expire last; otherwise the earlier ones do. */
  lemma LatestCrashDecides(launchedAt: nat, gone: seq<Gone>, t: nat)
    requires gone != [] && Ordered(Life(launchedAt, gone, false, false))
    ensures var n := |gone| - 1;
            SessionArms(gone, t) <==>
            if Qualifies(gone, n) then t < gone[n].at + EXPIRY_MS else SessionArms(gone[..n], t)
  {
    hide Qualifies;
    var n := |gone| - 1;
    forall j | 0 <= j < n
      ensures Qualifies(gone[..n], j) == Qualifies(gone, j) && gone[..n][j] == gone[j]
    {
      QualifiesInPrefix(gone, j, n);
    }
  }

  /** After a hardware session that began without an active marker, the marker is active exactly while armed. */
  lemma {:induction false} SessionArmsMarker(file: MarkerFile, launchedAt: nat, gone: seq<Gone>, t: nat)
    requires Hardware(file, launchedAt) && Ordered(Life(launchedAt, gone, false, false))
    requires Before(Life(launchedAt, gone, false, false), t)
    ensures Read(FileAfterGone(file, true, gone), t).Some? <==> SessionArms(gone, t)
    decreases |gone|
  {
    if gone == [] {
      ExpiredStays(file, launchedAt, t);
    } else {
      var n := |gone| - 1;
      var front, last := gone[..n], gone[n];
      assert forall j :: 0 <= j < n ==> front[j] == gone[j];
      assert Before(Life(launchedAt, front, false, false), t);
      SessionArmsMarker(file, launchedAt, front, t);
      assert gone[..n + 1] == gone;
      LatestCrashDecides(launchedAt, gone, t);
      if !Qualifies(gone, n) {
        assert FileAfterGone(file, true, gone) == FileAfterGone(file, true, front);
      }
    }
  }

  //// What the marker of a session says.

  const SEVEN_DAYS: nat := 604_800_000

  lemma {:induction false} MoreCrashes(gone: seq<Gone>, k: nat)
    requires k <= |gone|
    ensures CrashCount(gone[..k]) <= CrashCount(gone)
    decreases |gone|
  {
    if k == |gone| {
      assert gone[..k] == gone;
    } else {
      assert gone[..|gone| - 1][..k] == gone[..k];
      MoreCrashes(gone[..|gone| - 1], k);
    }
  }

  lemma {:induction false} NothingRecorded(file: MarkerFile, gone: seq<Gone>)
    requires forall k :: 0 <= k < |gone| ==> !Qualifies(gone, k)
    ensures FileAfterGone(file, true, gone) == file
    decreases |gone|
  {
    if gone != [] {
      var n := |gone| - 1;
      forall k | 0 <= k < n
        ensures !Qualifies(gone[..n], k)
      {
        QualifiesInPrefix(gone, k, n);
      }
      NothingRecorded(file, gone[..n]);
      assert gone[..n + 1] == gone && !Qualifies(gone, n);
    }
  }

  /**
   Crash i begins a series and crash j is the session's last recorded one: every
   recorded crash between them comes less than seven days after an earlier one
   of the series, and none before the series is that close to its first.
   */
  ghost predicate Series(gone: seq<Gone>, i: nat, j: nat) {
    && i <= j < |gone| && Qualifies(gone, i) && Qualifies(gone, j)
    && (forall k :: j < k < |gone| ==> !Qualifies(gone, k))
    && (forall k :: i < k <= j && Qualifies(gone, k) ==> FollowsClosely(gone, i, k))
    && (forall k :: 0 <= k < i && Qualifies(gone, k) ==> gone[k].at + SEVEN_DAYS <= gone[i].at)
  }

  ghost predicate FollowsClosely(gone: seq<Gone>, i: nat, k: nat)
    requires i < k < |gone|
  {
    exists m :: i <= m < k && Qualifies(gone, m) && gone[k].at < gone[m].at + SEVEN_DAYS
  }

  /** The marker that a series leaves. */
  function SeriesMarker(gone: seq<Gone>, i: nat, j: nat): Marker
    requires i <= j < |gone|
  {
    Marker(CrashCount(gone[..j + 1]), gone[i].at, gone[j].at, gone[j].at + SEVEN_DAYS)
  }

  lemma ClosenessInPrefix(gone: seq<Gone>, n: nat, i: nat, k: nat)
    requires i < k < n <= |gone| && FollowsClosely(gone[..n], i, k)
    ensures FollowsClosely(gone, i, k)
  {
    hide Qualifies;
    var m :| i <= m < k && Qualifies(gone[..n], m) && gone[..n][k].at < gone[..n][m].at + SEVEN_DAYS;
    QualifiesInPrefix(gone, m, n);
  }

  lemma SeriesInPrefix(gone: seq<Gone>, n: nat, i: nat, j: nat)
    requires n + 1 == |gone| && Series(gone[..n], i, j) && !Qualifies(gone, n)
    ensures Series(gone, i, j) && SeriesMarker(gone, i, j) == SeriesMarker(gone[..n], i, j)
  {
    hide Qualifies, CrashCount, SEVEN_DAYS;
    hide FollowsClosely;
    forall k | 0 <= k < n
      ensures Qualifies(gone[..n], k) == Qualifies(gone, k) && gone[..n][k] == gone[k]
    {
      QualifiesInPrefix(gone, k, n);
    }
    forall k | i < k <= j && Qualifies(gone, k)
      ensures FollowsClosely(gone, i, k)
    {
      ClosenessInPrefix(gone, n, i, k);
    }
    assert gone[..n][..j + 1] == gone[..j + 1];
  }

  /** The series of the earlier crashes goes on with crash n, or a new one begins with it. */
  lemma SeriesGoesOn(launchedAt: nat, gone: seq<Gone>, n: nat, i: nat, j: nat)
    requires n + 1 == |gone| && Ordered(Life(launchedAt, gone, false, false))
    requires Series(gone[..n], i, j) && Qualifies(gone, n)
    ensures if gone[n].at < gone[j].at + SEVEN_DAYS then Series(gone, i, n) else Series(gone, n, n)
  {
    hide Qualifies;
    forall k | 0 <= k < n
      ensures Qualifies(gone[..n], k) == Qualifies(gone, k) && gone[..n][k] == gone[k]
    {
      QualifiesInPrefix(gone, k, n);
    }
    if gone[n].at < gone[j].at + SEVEN_DAYS {
      forall k | i < k <= n && Qualifies(gone, k)
        ensures FollowsClosely(gone, i, k)
      {
        if k == n {
          assert i <= j < k && Qualifies(gone, j);
        } else {
          ClosenessInPrefix(gone, n, i, k);
        }
      }
    }
  }

  /**
   A hardware session that records any crash leaves a marker that counts the
   session's crashes up to the last recorded one, and names the first crash of
   the series, that last one, and a day seven days later. Quitting leaves it.
   */
  lemma {:induction false} SessionMarker(file: MarkerFile, launchedAt: nat, gone: seq<Gone>) returns (i: nat, j: nat)
    requires Hardware(file, launchedAt) && Ordered(Life(launchedAt, gone, false, false))
    requires exists k :: 0 <= k < |gone| && Qualifies(gone, k)
    ensures Series(gone, i, j)
    ensures FileAfterGone(file, true, gone) == Stored(SeriesMarker(gone, i, j))
    ensures forall quits, removable ::
              FileAfterLife(file, Life(launchedAt, gone, quits, removable)) == Stored(SeriesMarker(gone, i, j))
    decreases |gone|
  {
    hide Series, Qualifies, FileAfterGone, FileAfterLife, Ordered, Hardware, CrashCount, SeriesMarker;
    var n := |gone| - 1;
    var front := gone[..n];
    OrderedFront(launchedAt, gone);
    if exists k :: 0 <= k < n && Qualifies(front, k) {
      i, j := SessionMarker(file, launchedAt, front);
      SeriesBounds(front, i, j);
      if !Qualifies(gone, n) {
        SeriesInPrefix(gone, n, i, j);
        NotRecorded(file, gone, n);
      } else {
        SeriesGoesOn(launchedAt, gone, n, i, j);
        SeriesRecorded(file, gone, n, i, j);
        i, j := if gone[n].at < gone[j].at + SEVEN_DAYS then i else n, n;
      }
    } else {
      NoneInFront(gone, n);
      AloneIsSeries(gone, n);
      AloneRecorded(file, launchedAt, gone, n);
      i, j := n, n;
    }
    forall quits, removable
      ensures FileAfterLife(file, Life(launchedAt, gone, quits, removable)) == FileAfterGone(file, true, gone)
    {
      SeriesBounds(gone, i, j);
      QuitLeaves(file, launchedAt, gone, j, quits, removable);
    }
  }

  lemma OrderedFront(launchedAt: nat, gone: seq<Gone>)
    requires gone != [] && Ordered(Life(launchedAt, gone, false, false))
    ensures Ordered(Life(launchedAt, gone[..|gone| - 1], false, false))
  {
  }

  lemma NotRecorded(file: MarkerFile, gone: seq<Gone>, n: nat)
    requires n + 1 == |gone| && !Qualifies(gone, n)
    ensures FileAfterGone(file, true, gone) == FileAfterGone(file, true, gone[..n])
  {
    assert gone[..n + 1] == gone;
  }

  lemma SeriesRecorded(file: MarkerFile, gone: seq<Gone>, n: nat, i: nat, j: nat)
    requires n + 1 == |gone| && i <= j < n && Qualifies(gone, n)
    requires FileAfterGone(file, true, gone[..n]) == Stored(SeriesMarker(gone[..n], i, j))
    ensures FileAfterGone(file, true, gone) ==
            Stored(SeriesMarker(gone, if gone[n].at < gone[j].at + SEVEN_DAYS then i else n, n))
  {
    hide FileAfterGone, CrashCount;
    assert gone[..n + 1] == gone && gone[..n][..j + 1] == gone[..j + 1];
    MoreCrashes(gone, j + 1);
    CountStep(file, gone, n);
  }

  lemma CountStep(file: MarkerFile, gone: seq<Gone>, n: nat)
    requires n + 1 == |gone| && Qualifies(gone, n)
    ensures CrashCount(gone) == CrashCount(gone[..n]) + 1
    ensures FileAfterGone(file, true, gone) ==
            Stored(NewMarker(FileAfterGone(file, true, gone[..n]), CrashCount(gone), gone[n].at))
  {
    hide NewMarker;
    assert gone[..n + 1] == gone;
  }

  lemma AloneRecorded(file: MarkerFile, launchedAt: nat, gone: seq<Gone>, n: nat)
    requires n + 1 == |gone| && Qualifies(gone, n) && forall k :: 0 <= k < n ==> !Qualifies(gone[..n], k)
    requires Hardware(file, launchedAt) && Ordered(Life(launchedAt, gone, false, false))
    ensures FileAfterGone(file, true, gone) == Stored(SeriesMarker(gone, n, n))
  {
    hide FileAfterGone, CrashCount, Qualifies;
    NothingRecorded(file, gone[..n]);
    ExpiredStays(file, launchedAt, gone[n].at);
    CountStep(file, gone, n);
    assert gone[..n + 1] == gone;
  }

  lemma QuitLeaves(file: MarkerFile, launchedAt: nat, gone: seq<Gone>, j: nat, quits: bool, removable: bool)
    requires Hardware(file, launchedAt) && j < |gone| && CrashCount(gone[..j + 1]) >= 2
    ensures FileAfterLife(file, Life(launchedAt, gone, quits, removable)) == FileAfterGone(file, true, gone)
  {
    hide FileAfterGone, CrashCount;
    MoreCrashes(gone, j + 1);
  }

  /**
   Recording over an active marker: the first crash stays the first, the count
   is the larger of the two, and the seven days begin again.
   */
  lemma RefreshKeepsTheFirst(file: MarkerFile, count: nat, now: nat)
    requires count >= 2 && Read(file, now).Some?
    ensures var was := Read(file, now).value;
            Recorded(file, count, now) ==
            Stored(Marker(if count < was.crashes then was.crashes else count, was.firstCrashAt, now, now + SEVEN_DAYS))
    ensures Read(Recorded(file, count, now), now).Some?
  {
  }

  /** No exit of the session was a crash. */
  predicate CrashFree(gone: seq<Gone>) {
    forall k :: 0 <= k < |gone| ==> !gone[k].crashed
  }

  lemma {:induction false} CrashFreeCountsNone(gone: seq<Gone>)
    ensures CrashCount(gone) == 0 <==> CrashFree(gone)
    decreases |gone|
  {
    if gone != [] {
      CrashFreeCountsNone(gone[..|gone| - 1]);
    }
  }

  /**
   What a session leaves, for every session: under an active marker the file as
   it was; without one, the marker of its recorded crashes if there are any, no
   file after a crash-free session that could clear it on quitting, and
   otherwise the file as it was.
   */
  lemma LifeLeaves(file: MarkerFile, life: Life)
    requires Ordered(life)
    ensures var left := FileAfterLife(file, life);
            if !Hardware(file, life.launchedAt) then
              left == file
            else if exists k :: 0 <= k < |life.gone| && Qualifies(life.gone, k) then
              exists i: nat, j: nat :: Series(life.gone, i, j) && left == Stored(SeriesMarker(life.gone, i, j))
            else if CrashFree(life.gone) && life.quits && life.removable then
              left == Absent
            else
              left == file
  {
    hide Series, Qualifies, SeriesMarker, FileAfterGone;
    if !Hardware(file, life.launchedAt) {
      SoftwareChangesNothing(file, life.gone);
    } else if exists k :: 0 <= k < |life.gone| && Qualifies(life.gone, k) {
      var i, j := SessionMarker(file, life.launchedAt, life.gone);
    } else {
      NothingRecorded(file, life.gone);
      CrashFreeCountsNone(life.gone);
    }
  }

  lemma SeriesBounds(gone: seq<Gone>, i: nat, j: nat)
    requires Series(gone, i, j)
    ensures i <= j < |gone| && CrashCount(gone[..j + 1]) >= 2
  {
  }

  lemma NoneInFront(gone: seq<Gone>, n: nat)
    requires n + 1 == |gone| && exists k :: 0 <= k < |gone| && Qualifies(gone, k)
    requires forall k :: 0 <= k < n ==> !Qualifies(gone[..n], k)
    ensures Qualifies(gone, n) && forall k :: 0 <= k < n ==> !Qualifies(gone, k)
  {
    hide Qualifies;
    forall k | 0 <= k < n
      ensures Qualifies(gone[..n], k) == Qualifies(gone, k)
    {
      QualifiesInPrefix(gone, k, n);
    }
  }

  lemma AloneIsSeries(gone: seq<Gone>, n: nat)
    requires n + 1 == |gone| && exists k :: 0 <= k < |gone| && Qualifies(gone, k)
    requires forall k :: 0 <= k < n ==> !Qualifies(gone[..n], k)
    ensures Series(gone, n, n)
  {
    hide Qualifies;
    NoneInFront(gone, n);
  }

  lemma {:induction false} SoftwareChangesNothing(file: MarkerFile, gone: seq<Gone>)
    ensures FileAfterGone(file, false, gone) == file
    decreases |gone|
  {
    if gone != [] {
      SoftwareChangesNothing(file, gone[..|gone| - 1]);
    }
  }

  lemma {:induction false} NoCrashesNoRecord(file: MarkerFile, hardware: bool, gone: seq<Gone>)
    requires CrashCount(gone) == 0
    ensures FileAfterGone(file, hardware, gone) == file
    decreases |gone|
  {
    if gone != [] {
      NoCrashesNoRecord(file, hardware, gone[..|gone| - 1]);
    }
  }

  /** A session that starts under an active marker never touches it: self-heal removes only expired ones. */
  lemma ActiveMarkerSurvives(file: MarkerFile, life: Life)
    requires Read(file, life.launchedAt).Some?
    ensures FileAfterLife(file, life) == file
  {
    SoftwareChangesNothing(file, life.gone);
  }

  /** After one session: active if it was active in a software session, or if this hardware session armed it. */
  lemma LifeReads(file: MarkerFile, life: Life, t: nat)
    requires Ordered(life) && Before(life, t)
    ensures Read(FileAfterLife(file, life), t).Some? <==>
            if Hardware(file, life.launchedAt) then SessionArms(life.gone, t) else Read(file, t).Some?
  {
    if Hardware(file, life.launchedAt) {
      SessionArmsMarker(file, life.launchedAt, life.gone, t);
      if life.quits && CrashCount(life.gone) == 0 {
        NoCrashesNoRecord(file, true, life.gone);
        ExpiredStays(file, life.launchedAt, t);
      }
    } else {
      SoftwareChangesNothing(file, life.gone);
    }
  }

  //// The history theorem.

  ghost predicate HistoryArms(file: MarkerFile, lives: seq<Life>, t: nat) {
    exists i, j :: 0 <= i < |lives| && 0 <= j < |lives[i].gone| && Arms(file, lives, i, j, t)
  }

  lemma ArmsInPrefix(file: MarkerFile, lives: seq<Life>, i: nat, j: nat, n: nat, t: nat)
    requires i < n <= |lives| && j < |lives[i].gone|
    ensures Arms(file, lives[..n], i, j, t) == Arms(file, lives, i, j, t)
  {
    assert lives[..n][..i] == lives[..i];
  }

  lemma HistoryArmsSplit(file: MarkerFile, lives: seq<Life>, t: nat)
    requires lives != []
    ensures var n := |lives| - 1;
            HistoryArms(file, lives, t) <==>
            HistoryArms(file, lives[..n], t) || (RanOnHardware(file, lives, n) && SessionArms(lives[n].gone, t))
  {
    var n := |lives| - 1;
    var front := lives[..n];
    forall i: nat, j: nat | i < n && j < |lives[i].gone|
      ensures Arms(file, front, i, j, t) == Arms(file, lives, i, j, t)
    {
      ArmsInPrefix(file, lives, i, j, n, t);
    }
    if HistoryArms(file, front, t) {
      var i, j :| 0 <= i < n && 0 <= j < |front[i].gone| && Arms(file, front, i, j, t);
      assert Arms(file, lives, i, j, t);
    }
    if RanOnHardware(file, lives, n) && SessionArms(lives[n].gone, t) {
      var j :| 0 <= j < |lives[n].gone| && Qualifies(lives[n].gone, j) && t < lives[n].gone[j].at + EXPIRY_MS;
      assert Arms(file, lives, n, j, t);
    }
    if HistoryArms(file, lives, t) {
      var i, j :| 0 <= i < |lives| && 0 <= j < |lives[i].gone| && Arms(file, lives, i, j, t);
      if i < n {
        assert Arms(file, front, i, j, t);
      }
    }
  }

  /**
   With a clock that never runs backwards and sessions that do not overlap: a
   launch at t is software-rendered if and only if the initial marker is still
   active, or some earlier hardware session recorded a crash, as its second or
   later one, less than seven days before t.
   */
  lemma {:induction false} LaunchCharacterised(file: MarkerFile, lives: seq<Life>, start: nat, t: nat)
    requires start <= t
    requires OrderedLives(lives, start) && forall i :: 0 <= i < |lives| ==> Before(lives[i], t)
    ensures Read(FileAfter(file, lives), t).Some? <==> Read(file, t).Some? || HistoryArms(file, lives, t)
    decreases |lives|
  {
    if lives != [] {
      var n := |lives| - 1;
      var front, life := lives[..n], lives[n];
      HistoryArmsSplit(file, lives, t);
      LifeReads(FileAfter(file, front), life, t);
      LaunchCharacterised(file, front, start, t);
      if RanOnHardware(file, lives, n) {
        ExpiredStays(FileAfter(file, front), life.launchedAt, t);
      }
    }
  }

  /** From a file that is no active marker: exactly when such a crash was recorded. */
  lemma SoftwareLaunchCharacterised(file: MarkerFile, lives: seq<Life>, start: nat, t: nat)
    requires Read(file, start).None? && start <= t
    requires OrderedLives(lives, start) && forall i :: 0 <= i < |lives| ==> Before(lives[i], t)
    ensures Read(FileAfter(file, lives), t).Some? <==> HistoryArms(file, lives, t)
  {
    LaunchCharacterised(file, lives, start, t);
    ExpiredStays(file, start, t);
  }
}
