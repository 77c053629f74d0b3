/**
 The reset's frame, the fate of the database, the name it is moved to, and
 which linked targets are removed.
 */
module ResetSafety {
  import opened Text
  import opened Paths
  import opened Volume
  import opened VolumeLaws
  import opened Storage
  import opened Reset
  import opened ResetProofs

  /** Two disjoint roots reached without links; no cap and no promise about listings. */
  ghost predicate Steady(d: Disk, dirs: StorageDirs) {
    Canonical(d, dirs.dataDir) && Canonical(d, dirs.configDir) && Apart(dirs.dataDir, dirs.configDir)
  }

  //// What each step leaves alone.

  lemma UnchangedTrans(d: Disk, e: Disk, f: Disk, q: Path)
    requires Unchanged(d, e, q) && Unchanged(e, f, q)
    ensures Unchanged(d, f, q)
  {
  }

  lemma RemovalFrame(w: World, s: Sweep, dirs: StorageDirs, t: Target, q: Path)
    requires Steady(s.disk, dirs) && OwnTarget(dirs, t)
    ensures Steady(RemoveOne(w, s, t).disk, dirs)
    ensures !AtOrUnder(Place(t), q) ==> Unchanged(s.disk, RemoveOne(w, s, t).disk, q)
    ensures q in RemoveOne(w, s, t).disk ==> q in s.disk && s.disk[q] == RemoveOne(w, s, t).disk[q]
  {
    hide Canonical, MayRemove, AfterRemoval, AtOrUnder;
    RemovalIsRm(w, s.disk, t);
    RmKeepsPaths(s.disk, Place(t), dirs.dataDir);
    RmKeepsPaths(s.disk, Place(t), dirs.configDir);
  }

  predicate Misses(targets: seq<Target>, q: Path) {
    forall t :: t in targets ==> !AtOrUnder(Place(t), q)
  }

  lemma {:induction false} SweepFrame(w: World, s: Sweep, dirs: StorageDirs, targets: seq<Target>, q: Path)
    requires Steady(s.disk, dirs) && OwnTargets(dirs, targets)
    ensures var e := RemoveAll(w, s, targets);
            && Steady(e.disk, dirs)
            && (Misses(targets, q) ==> Unchanged(s.disk, e.disk, q))
            && (q in e.disk ==> q in s.disk && s.disk[q] == e.disk[q])
    decreases |targets|
  {
    hide Steady, RemoveOne, Place, OwnTarget, AtOrUnder;
    if targets != [] {
      RemovalFrame(w, s, dirs, targets[0], q);
      SweepFrame(w, RemoveOne(w, s, targets[0]), dirs, targets[1..], q);
    }
  }

  lemma SidecarFrame(w: World, d: Disk, dirs: StorageDirs, target: string, suffix: string, q: Path)
    requires Steady(d, dirs)
    ensures var e := MoveSidecar(w, d, dirs.dataDir, target, suffix);
            && Steady(e, dirs)
            && (!AtOrUnder(dirs.dataDir + [CATALOG_DB_FILENAME + suffix], q)
                && !AtOrUnder(dirs.dataDir + [target + suffix], q) ==>
                  Unchanged(d, e, q))
  {
    hide Canonical, Moved, Exists, RenameIn, AtOrUnder, Apart;
    var from, to := dirs.dataDir + [CATALOG_DB_FILENAME + suffix], dirs.dataDir + [target + suffix];
    RenameInIs(w, d, dirs.dataDir, CATALOG_DB_FILENAME + suffix, target + suffix);
    MoveFrame(d, dirs, CATALOG_DB_FILENAME + suffix, target + suffix, q);
  }

  lemma MoveFrame(d: Disk, dirs: StorageDirs, a: string, b: string, q: Path)
    requires Steady(d, dirs)
    ensures var e := Moved(d, dirs.dataDir + [a], dirs.dataDir + [b]);
            && Steady(e, dirs)
            && (!AtOrUnder(dirs.dataDir + [a], q) && !AtOrUnder(dirs.dataDir + [b], q) ==> Unchanged(d, e, q))
  {
    hide Canonical, Moved, AtOrUnder, Apart;
    var from, to := dirs.dataDir + [a], dirs.dataDir + [b];
    DataEntryOutside(dirs, b);
    MovedKeepsCanonical(d, from, to, dirs.dataDir);
    MovedKeepsCanonical(d, from, to, dirs.configDir);
    MovedAt(d, from, to, q);
  }

  function QuarantineNames(target: string): set<string> {
    {CATALOG_DB_FILENAME, CATALOG_DB_FILENAME + "-wal", CATALOG_DB_FILENAME + "-shm",
     target, target + "-wal", target + "-shm"}
  }

  /** The names in the data root a reset may touch. */
  function TouchedNames(target: Option<string>): set<string> {
    {GPU_FALLBACK_MARKER, COVERS_DIRNAME} + if target.Some? then QuarantineNames(target.value) else {}
  }

  predicate Avoids(dir: Path, names: set<string>, q: Path) {
    forall n :: n in names ==> !AtOrUnder(dir + [n], q)
  }

  predicate Touches(dirs: StorageDirs, target: Option<string>, q: Path) {
    Under(dirs.configDir, q) || exists n :: n in TouchedNames(target) && AtOrUnder(dirs.dataDir + [n], q)
  }

  function QuarantinedAs(r: Outcome): Option<string> {
    if r.Finished? then r.quarantined else None
  }

  lemma {:induction false} ConfigTargetsMiss(dirs: StorageDirs, names: seq<string>, q: Path)
    requires !Under(dirs.configDir, q)
    ensures Misses(TargetsIn(dirs.configDir, names), q)
    decreases |names|
  {
    if names != [] {
      ConfigTargetsMiss(dirs, names[1..], q);
      EntryNotAbove(dirs.configDir, names[0], q);
    }
  }

  lemma EntryNotAbove(root: Path, name: string, q: Path)
    requires !Under(root, q)
    ensures !AtOrUnder(root + [name], q)
  {
    if |root| < |q| {
      assert q[..|root| + 1][..|root|] == q[..|root|];
    }
  }

  lemma ClearedFrame(w: World, d: Disk, dirs: StorageDirs, q: Path)
    requires Steady(d, dirs)
    ensures var s := ClearedAndUncovered(w, d, dirs);
            && Steady(s.disk, dirs)
            && (!Touches(dirs, None, q) ==> Unchanged(d, s.disk, q))
            && (q in s.disk ==> q in d && d[q] == s.disk[q])
  {
    hide Steady, RemoveAll, RemoveOne, TargetsIn, Under, AtOrUnder;
    var marker, covers := Target(dirs.dataDir, GPU_FALLBACK_MARKER), Target(dirs.dataDir, COVERS_DIRNAME);
    ClearTargetsAreOwn(dirs);
    SweepFrame(w, Sweep(d, [], 0), dirs, ClearTargets(dirs), q);
    var cleared := RemoveAll(w, Sweep(d, [], 0), ClearTargets(dirs));
    RemovalFrame(w, Sweep(cleared.disk, [], cleared.freed), dirs, covers, q);
    if !Touches(dirs, None, q) {
      ConfigTargetsMiss(dirs, BROWSER_CACHE_DIRS, q);
      assert GPU_FALLBACK_MARKER in TouchedNames(None) && COVERS_DIRNAME in TouchedNames(None);
      assert Misses(ClearTargets(dirs), q);
      UnchangedTrans(d, cleared.disk, ClearedAndUncovered(w, d, dirs).disk, q);
    }
  }

  lemma SettingsFrame(w: World, s: Sweep, dirs: StorageDirs, q: Path)
    requires Steady(s.disk, dirs)
    ensures var e := SweepSettings(w, s, dirs.configDir);
            && (!Under(dirs.configDir, q) ==> Unchanged(s.disk, e.disk, q))
            && (q in e.disk ==> q in s.disk && s.disk[q] == e.disk[q])
  {
    hide Steady, RemoveAll, TargetsIn, Under, ConfigNames, Settings, OwnTargets, Misses;
    var names := Settings(ConfigNames(w, s.disk, dirs.configDir));
    TargetsAreOwn(dirs, dirs.configDir, names);
    SweepFrame(w, s, dirs, TargetsIn(dirs.configDir, names), q);
    if !Under(dirs.configDir, q) {
      ConfigTargetsMiss(dirs, names, q);
    }
  }

  lemma QuarantineFrame(w: World, d: Disk, dirs: StorageDirs, stamp: string, millis: nat, q: Path)
    requires Steady(d, dirs) && QuarantineDatabase(w, d, dirs.dataDir, stamp, millis).Quarantined?
    ensures var r := QuarantineDatabase(w, d, dirs.dataDir, stamp, millis);
            && Steady(r.disk, dirs)
            && (Avoids(dirs.dataDir, QuarantineNames(r.target), q) ==> Unchanged(d, r.disk, q))
  {
    hide Steady, Exists, RenameIn, MoveSidecar, Moved, Under, AtOrUnder, QuarantineTarget, Unchanged;
    var dir, db := dirs.dataDir, CATALOG_DB_FILENAME;
    var target := QuarantineTarget(w, d, dir, stamp, millis, 0);
    DatabaseMoves(w, d, dirs, stamp, millis, q);
    var moved := RenameIn(w, d, dir, db, target).value;
    SidecarFrame(w, moved, dirs, target, "-wal", q);
    var walMoved := MoveSidecar(w, moved, dir, target, "-wal");
    SidecarFrame(w, walMoved, dirs, target, "-shm", q);
    var names := QuarantineNames(target);
    if Avoids(dir, names, q) {
      assert db in names && target in names && db + "-wal" in names && db + "-shm" in names
             && target + "-wal" in names && target + "-shm" in names;
      UnchangedTrans(d, moved, walMoved, q);
      UnchangedTrans(d, walMoved, MoveSidecar(w, walMoved, dir, target, "-shm"), q);
    }
  }

  lemma DatabaseMoves(w: World, d: Disk, dirs: StorageDirs, stamp: string, millis: nat, q: Path)
    requires Steady(d, dirs) && QuarantineDatabase(w, d, dirs.dataDir, stamp, millis).Quarantined?
    ensures var dir, db := dirs.dataDir, CATALOG_DB_FILENAME;
            var target := QuarantineTarget(w, d, dir, stamp, millis, 0);
            var moved := RenameIn(w, d, dir, db, target);
            && moved.Some? && Steady(moved.value, dirs) && moved.value == Moved(d, dir + [db], dir + [target])
            && (!AtOrUnder(dir + [db], q) && !AtOrUnder(dir + [target], q) ==> Unchanged(d, moved.value, q))
  {
    hide Canonical, Exists, RenameIn, MoveSidecar, Moved, AtOrUnder, QuarantineTarget, Unchanged;
    var target := QuarantineTarget(w, d, dirs.dataDir, stamp, millis, 0);
    RenameInIs(w, d, dirs.dataDir, CATALOG_DB_FILENAME, target);
    MoveFrame(d, dirs, CATALOG_DB_FILENAME, target, q);
  }

  //// The frame of a reset, failed or finished.

  /**
   Nothing changes but what lies below the config root, the marker and the
   covers, and the entries named for the database and its quarantine. It needs
   no promise about listings, sizes, refusals or where links lead.
   */
  lemma ResetFrame(w: World, d: Disk, dirs: StorageDirs, stamp: string, millis: nat, q: Path)
    requires Steady(d, dirs)
    requires !Touches(dirs, QuarantinedAs(ResetAppData(w, d, dirs, stamp, millis)), q)
    ensures Unchanged(d, ResetAppData(w, d, dirs, stamp, millis).disk, q)
  {
    hide Steady, ClearedAndUncovered, SweepSettings, QuarantineDatabase, Unchanged, Under, AtOrUnder;
    var r := ResetAppData(w, d, dirs, stamp, millis);
    assert forall n :: n in TouchedNames(None) ==> n in TouchedNames(QuarantinedAs(r));
    ClearedFrame(w, d, dirs, q);
    var s := ClearedAndUncovered(w, d, dirs);
    var quarantine := QuarantineDatabase(w, s.disk, dirs.dataDir, stamp, millis);
    if quarantine.Quarantined? {
      assert Avoids(dirs.dataDir, QuarantineNames(quarantine.target), q);
      QuarantineFrame(w, s.disk, dirs, stamp, millis, q);
      SettingsFrame(w, s.(disk := quarantine.disk), dirs, q);
      UnchangedTrans(d, s.disk, quarantine.disk, q);
      UnchangedTrans(d, quarantine.disk, r.disk, q);
    } else if quarantine.NoDatabase? {
      SettingsFrame(w, s, dirs, q);
      UnchangedTrans(d, s.disk, r.disk, q);
    }
  }

  //// The database survives.

  lemma DataEntryUntouched(dirs: StorageDirs, name: string, rel: Path)
    requires Apart(dirs.dataDir, dirs.configDir)
    ensures !Under(dirs.configDir, dirs.dataDir + [name] + rel)
    ensures forall n :: n != name ==> !AtOrUnder(dirs.dataDir + [n], dirs.dataDir + [name] + rel)
  {
    forall n | n != name
      ensures !AtOrUnder(dirs.dataDir + [n], dirs.dataDir + [name] + rel)
    {
      SiblingsAreApart(dirs.dataDir, name, n);
      ApartBelow(dirs.dataDir + [name], dirs.dataDir + [n], rel);
    }
    ApartBelow(dirs.dataDir, dirs.configDir, [name] + rel);
    assert dirs.dataDir + ([name] + rel) == dirs.dataDir + [name] + rel;
  }

  /** An entry of the data root that is neither marker nor covers is as it was after the clearing. */
  lemma EntryOutlivesClearing(w: World, d: Disk, dirs: StorageDirs, name: string)
    requires Steady(d, dirs) && name != GPU_FALLBACK_MARKER && name != COVERS_DIRNAME
    ensures SameTree(d, dirs.dataDir + [name], ClearedAndUncovered(w, d, dirs).disk, dirs.dataDir + [name])
  {
    hide Canonical, ClearedAndUncovered, Under, AtOrUnder, Apart;
    var p := dirs.dataDir + [name];
    forall rel: Path
      ensures Unchanged(d, ClearedAndUncovered(w, d, dirs).disk, p + rel)
    {
      DataEntryUntouched(dirs, name, rel);
      ClearedFrame(w, d, dirs, p + rel);
    }
  }

  lemma EntryOutlivesSettings(w: World, s: Sweep, dirs: StorageDirs, name: string)
    requires Steady(s.disk, dirs)
    ensures SameTree(s.disk, dirs.dataDir + [name], SweepSettings(w, s, dirs.configDir).disk, dirs.dataDir + [name])
  {
    hide Canonical, SweepSettings, Under, AtOrUnder, Apart;
    var p := dirs.dataDir + [name];
    forall rel: Path
      ensures Unchanged(s.disk, SweepSettings(w, s, dirs.configDir).disk, p + rel)
    {
      DataEntryUntouched(dirs, name, rel);
      SettingsFrame(w, s, dirs, p + rel);
    }
  }

  lemma EntryOutlivesSidecar(w: World, d: Disk, dirs: StorageDirs, target: string, suffix: string, name: string)
    requires Steady(d, dirs) && name != CATALOG_DB_FILENAME + suffix && name != target + suffix
    ensures SameTree(d, dirs.dataDir + [name], MoveSidecar(w, d, dirs.dataDir, target, suffix), dirs.dataDir + [name])
  {
    hide Canonical, MoveSidecar, Under, AtOrUnder, Apart;
    var p := dirs.dataDir + [name];
    forall rel: Path
      ensures Unchanged(d, MoveSidecar(w, d, dirs.dataDir, target, suffix), p + rel)
    {
      DataEntryUntouched(dirs, name, rel);
      SidecarFrame(w, d, dirs, target, suffix, p + rel);
    }
  }

  /** A sidecar ends up beside the quarantined database, or stays where it was. */
  ghost predicate Kept(d: Disk, e: Disk, dir: Path, target: string, suffix: string) {
    || SameTree(d, dir + [CATALOG_DB_FILENAME + suffix], e, dir + [target + suffix])
    || SameTree(d, dir + [CATALOG_DB_FILENAME + suffix], e, dir + [CATALOG_DB_FILENAME + suffix])
  }

  lemma SidecarKept(w: World, d: Disk, dirs: StorageDirs, target: string, suffix: string)
    requires Steady(d, dirs)
    ensures Kept(d, MoveSidecar(w, d, dirs.dataDir, target, suffix), dirs.dataDir, target, suffix)
  {
    hide Canonical, Exists, Moved, Apart, RenameIn, SameTree;
    RenameInIs(w, d, dirs.dataDir, CATALOG_DB_FILENAME + suffix, target + suffix);
    MovedTree(d, dirs.dataDir + [CATALOG_DB_FILENAME + suffix], dirs.dataDir + [target + suffix]);
    SameTreeRefl(d, dirs.dataDir + [CATALOG_DB_FILENAME + suffix]);
  }

  lemma SameTreeRefl(d: Disk, p: Path)
    ensures SameTree(d, p, d, p)
  {
  }

  lemma KeptAfter(d: Disk, e: Disk, f: Disk, dir: Path, target: string, suffix: string)
    requires Kept(d, e, dir, target, suffix)
    requires SameTree(e, dir + [target + suffix], f, dir + [target + suffix])
    requires SameTree(e, dir + [CATALOG_DB_FILENAME + suffix], f, dir + [CATALOG_DB_FILENAME + suffix])
    ensures Kept(d, f, dir, target, suffix)
  {
    hide SameTree;
    var from, to := dir + [CATALOG_DB_FILENAME + suffix], dir + [target + suffix];
    if SameTree(d, from, e, to) {
      SameTreeTrans(d, from, e, to, f, to);
    } else {
      SameTreeTrans(d, from, e, from, f, from);
    }
  }

  lemma KeptBefore(c: Disk, d: Disk, e: Disk, dir: Path, target: string, suffix: string)
    requires SameTree(c, dir + [CATALOG_DB_FILENAME + suffix], d, dir + [CATALOG_DB_FILENAME + suffix])
    requires Kept(d, e, dir, target, suffix)
    ensures Kept(c, e, dir, target, suffix)
  {
    hide SameTree;
    var from, to := dir + [CATALOG_DB_FILENAME + suffix], dir + [target + suffix];
    if SameTree(d, from, e, to) {
      SameTreeTrans(c, from, d, from, e, to);
    } else {
      SameTreeTrans(c, from, d, from, e, from);
    }
  }

  lemma QuarantineKeeps(w: World, d: Disk, dirs: StorageDirs, stamp: string, millis: nat)
    requires Steady(d, dirs) && QuarantineDatabase(w, d, dirs.dataDir, stamp, millis).Quarantined?
    ensures var r := QuarantineDatabase(w, d, dirs.dataDir, stamp, millis);
            && Steady(r.disk, dirs) && IsQuarantineName(r.target)
            && SameTree(d, dirs.dataDir + [CATALOG_DB_FILENAME], r.disk, dirs.dataDir + [r.target])
            && Kept(d, r.disk, dirs.dataDir, r.target, "-wal") && Kept(d, r.disk, dirs.dataDir, r.target, "-shm")
  {
    hide Steady, Exists, RenameIn, Moved, MoveSidecar, SameTree, Kept, QuarantineTarget, Unchanged, IsQuarantineName;
    var dir, db := dirs.dataDir, CATALOG_DB_FILENAME;
    var target := QuarantineTarget(w, d, dir, stamp, millis, 0);
    TargetIsQuarantineName(w, d, dir, stamp, millis, 0);
    DifferentNames(target);
    QuarantineFrame(w, d, dirs, stamp, millis, []);
    DatabaseMoves(w, d, dirs, stamp, millis, []);
    var moved := RenameIn(w, d, dir, db, target).value;
    var walMoved := MoveSidecar(w, moved, dir, target, "-wal");
    var end := MoveSidecar(w, walMoved, dir, target, "-shm");
    SidecarFrame(w, moved, dirs, target, "-wal", []);
    // The database: moved, then left alone twice.
    MovedTree(d, dir + [db], dir + [target]);
    EntryOutlivesSidecar(w, moved, dirs, target, "-wal", target);
    EntryOutlivesSidecar(w, walMoved, dirs, target, "-shm", target);
    SameTreeTrans(d, dir + [db], moved, dir + [target], walMoved, dir + [target]);
    SameTreeTrans(d, dir + [db], walMoved, dir + [target], end, dir + [target]);
    // The log: left alone, perhaps moved, left alone.
    EntryOutlivesMove(d, dirs, target, "-wal");
    SidecarKept(w, moved, dirs, target, "-wal");
    KeptBefore(d, moved, walMoved, dir, target, "-wal");
    EntryOutlivesSidecar(w, walMoved, dirs, target, "-shm", target + "-wal");
    EntryOutlivesSidecar(w, walMoved, dirs, target, "-shm", db + "-wal");
    KeptAfter(d, walMoved, end, dir, target, "-wal");
    // The shared memory: left alone twice, perhaps moved.
    EntryOutlivesMove(d, dirs, target, "-shm");
    EntryOutlivesSidecar(w, moved, dirs, target, "-wal", db + "-shm");
    SameTreeTrans(d, dir + [db + "-shm"], moved, dir + [db + "-shm"], walMoved, dir + [db + "-shm"]);
    SidecarKept(w, walMoved, dirs, target, "-shm");
    KeptBefore(d, walMoved, end, dir, target, "-shm");
  }

  lemma EntryOutlivesMove(d: Disk, dirs: StorageDirs, target: string, suffix: string)
    requires IsQuarantineName(target) && suffix in {"-wal", "-shm"}
    ensures var p := dirs.dataDir + [CATALOG_DB_FILENAME + suffix];
            SameTree(d, p, Moved(d, dirs.dataDir + [CATALOG_DB_FILENAME], dirs.dataDir + [target]), p)
  {
    hide Moved, SameTree, IsQuarantineName;
    var db := CATALOG_DB_FILENAME;
    DifferentNames(target);
    SiblingsAreApart(dirs.dataDir, db + suffix, db);
    SiblingsAreApart(dirs.dataDir, db + suffix, target);
    MovedElsewhere(d, dirs.dataDir + [db], dirs.dataDir + [target], dirs.dataDir + [db + suffix]);
  }

  lemma DifferentNames(target: string)
    requires IsQuarantineName(target)
    ensures var db := CATALOG_DB_FILENAME;
            && db != target && db != target + "-wal" && db != target + "-shm"
            && db + "-wal" != db && db + "-wal" != db + "-shm" && db + "-shm" != db
            && db + "-wal" != target && db + "-wal" != target + "-wal" && db + "-wal" != target + "-shm"
            && db + "-shm" != target && db + "-shm" != target + "-wal" && db + "-shm" != target + "-shm"
            && target != target + "-wal" && target != target + "-shm" && target + "-wal" != target + "-shm"
    ensures forall x :: x in SUFFIXES ==>
              CATALOG_DB_FILENAME + x != GPU_FALLBACK_MARKER && CATALOG_DB_FILENAME + x != COVERS_DIRNAME
  {
    hide IsQuarantineName;
    forall x, y | x in SUFFIXES && y in SUFFIXES
      ensures CATALOG_DB_FILENAME + x != target + y
      ensures x != y ==> CATALOG_DB_FILENAME + x != CATALOG_DB_FILENAME + y && target + x != target + y
      ensures COVERS_DIRNAME != CATALOG_DB_FILENAME + x && GPU_FALLBACK_MARKER != CATALOG_DB_FILENAME + x
    {
      NamesDiffer(target, x, y);
    }
    assert CATALOG_DB_FILENAME + "" == CATALOG_DB_FILENAME && target + "" == target;
    assert "" in SUFFIXES && "-wal" in SUFFIXES && "-shm" in SUFFIXES;
  }

  /**
   After a finished reset that reports a quarantined database, everything that
   was at the database's path is at the reported one, and its log and
   shared-memory files are beside it or where they were: no byte of the catalog
   is lost, whatever the links and the refusals.
   */
  lemma DatabaseSurvives(w: World, d: Disk, dirs: StorageDirs, stamp: string, millis: nat)
    requires Steady(d, dirs)
    ensures var r := ResetAppData(w, d, dirs, stamp, millis);
            QuarantinedAs(r).Some? ==>
              var target := r.quarantined.value;
              && SameTree(d, dirs.dataDir + [CATALOG_DB_FILENAME], r.disk, dirs.dataDir + [target])
              && Kept(d, r.disk, dirs.dataDir, target, "-wal") && Kept(d, r.disk, dirs.dataDir, target, "-shm")
  {
    if QuarantinedAs(ResetAppData(w, d, dirs, stamp, millis)).Some? {
      hide Steady, ClearedAndUncovered, SweepSettings, QuarantineDatabase, SameTree, Kept, IsQuarantineName;
      var dir, db := dirs.dataDir, CATALOG_DB_FILENAME;
      var r := ResetAppData(w, d, dirs, stamp, millis);
      ClearedFrame(w, d, dirs, []);
      var s := ClearedAndUncovered(w, d, dirs);
      var q := QuarantineDatabase(w, s.disk, dir, stamp, millis);
      QuarantineKeeps(w, s.disk, dirs, stamp, millis);
      DifferentNames(q.target);
      assert "" in SUFFIXES && "-wal" in SUFFIXES && "-shm" in SUFFIXES && db + "" == db;
      var t := s.(disk := q.disk);
      EntryOutlivesClearing(w, d, dirs, db);
      EntryOutlivesSettings(w, t, dirs, q.target);
      SameTreeTrans(d, dir + [db], s.disk, dir + [db], q.disk, dir + [q.target]);
      SameTreeTrans(d, dir + [db], q.disk, dir + [q.target], r.disk, dir + [q.target]);
      SidecarOutlives(w, d, dirs, s, t, q.target, "-wal");
      SidecarOutlives(w, d, dirs, s, t, q.target, "-shm");
    }
  }

  lemma SidecarOutlives(w: World, d: Disk, dirs: StorageDirs, s: Sweep, t: Sweep, target: string, suffix: string)
    requires Steady(d, dirs) && s == ClearedAndUncovered(w, d, dirs) && Steady(t.disk, dirs)
    requires CATALOG_DB_FILENAME + suffix != GPU_FALLBACK_MARKER && CATALOG_DB_FILENAME + suffix != COVERS_DIRNAME
    requires Kept(s.disk, t.disk, dirs.dataDir, target, suffix)
    ensures Kept(d, SweepSettings(w, t, dirs.configDir).disk, dirs.dataDir, target, suffix)
  {
    hide Steady, ClearedAndUncovered, SweepSettings, SameTree, Kept;
    var name := CATALOG_DB_FILENAME + suffix;
    EntryOutlivesClearing(w, d, dirs, name);
    KeptBefore(d, s.disk, t.disk, dirs.dataDir, target, suffix);
    EntryOutlivesSettings(w, t, dirs, name);
    EntryOutlivesSettings(w, t, dirs, target + suffix);
    KeptAfter(d, t.disk, SweepSettings(w, t, dirs.configDir).disk, dirs.dataDir, target, suffix);
  }

  //// Links that lead out are left alone.

  /**
   A target that is itself a link is removed exactly when what it leads to lies
   properly below the root: the two string tests, on the names and on the real
   paths, amount to that.
   */
  lemma LinkedTargetStaysInside(w: World, d: Disk, t: Target)
    requires Canonical(d, t.root) && t.root in d && IsLinkAt(d, Place(t)) && IsPath(Place(t))
    requires forall p :: p in d ==> IsPath(p)
    requires forall p :: w.follow(d, p).Some? ==> IsPath(w.follow(d, p).value)
    ensures MayRemove(w, d, t) <==>
            && t.root != [] && !w.busy(d, Place(t))
            && w.follow(d, Place(t)).Some? && Under(t.root, w.follow(d, Place(t)).value)
  {
    hide IsPath, StartsBelow, ThroughLink, Under;
    EntryResolves(w, d, t.root, t.name);
    EntryIsUnder(t.root, t.root, t.name) by {
      assert t.root[..|t.root|] == t.root;
    }
    ContainedIsBelow(p => RealPathOf(w, d, p), t.root, Place(t));
  }

  //// The quarantine name is free.

  lemma {:induction false} QuarantineSearch(w: World, d: Disk, dir: Path, stamp: string, millis: nat, attempt: nat)
    requires attempt <= QUARANTINE_ATTEMPTS
    ensures Exists(w, d, dir + [QuarantineTarget(w, d, dir, stamp, millis, attempt)]) <==>
            && (forall a :: attempt <= a < QUARANTINE_ATTEMPTS ==> Exists(w, d, dir + [Candidate(stamp, a)]))
            && Exists(w, d, dir + [Candidate(stamp, 0) + "-" + Decimal(millis)])
    decreases QUARANTINE_ATTEMPTS - attempt
  {
    hide Exists, Candidate;
    if attempt < QUARANTINE_ATTEMPTS && Exists(w, d, dir + [Candidate(stamp, attempt)]) {
      QuarantineSearch(w, d, dir, stamp, millis, attempt + 1);
    }
  }

  /** The chosen name is taken exactly when all thousand candidates and the name with the time are. */
  lemma QuarantineNameIsFree(w: World, d: Disk, dir: Path, stamp: string, millis: nat)
    ensures Exists(w, d, dir + [QuarantineTarget(w, d, dir, stamp, millis, 0)]) <==>
            && (forall a :: 0 <= a < QUARANTINE_ATTEMPTS ==> Exists(w, d, dir + [Candidate(stamp, a)]))
            && Exists(w, d, dir + [Candidate(stamp, 0) + "-" + Decimal(millis)])
  {
    QuarantineSearch(w, d, dir, stamp, millis, 0);
  }

  /** The names a reset gives out, spelled out. */
  function Spelled(stamp: string, k: nat): string {
    "tuxbooks.db.corrupt-" + stamp + if k == 0 then "" else "-" + Decimal(k)
  }

  /** Candidate k is free and those before it are taken. */
  ghost predicate FirstFree(w: World, d: Disk, dir: Path, stamp: string, k: nat) {
    && k < 1000 && !Exists(w, d, dir + [Spelled(stamp, k)])
    && forall j: nat :: j < k ==> Exists(w, d, dir + [Spelled(stamp, j)])
  }

  lemma CandidateSpelled(stamp: string, k: nat)
    ensures Candidate(stamp, k) == Spelled(stamp, k)
  {
    hide Decimal;
    assert CATALOG_DB_FILENAME + ".corrupt-" == "tuxbooks.db.corrupt-";
    assert Spelled(stamp, 0) == "tuxbooks.db.corrupt-" + stamp;
    Assoc("tuxbooks.db.corrupt-" + stamp, "-", Decimal(k));
  }

  lemma {:induction false} SearchIsFirstFree(w: World, d: Disk, dir: Path, stamp: string, millis: nat, k: nat)
    requires k <= 1000 && forall j: nat :: j < k ==> Exists(w, d, dir + [Spelled(stamp, j)])
    ensures var target := QuarantineTarget(w, d, dir, stamp, millis, k);
            || (exists i: nat :: FirstFree(w, d, dir, stamp, i) && target == Spelled(stamp, i))
            || ((forall i: nat :: i < 1000 ==> Exists(w, d, dir + [Spelled(stamp, i)])) &&
                target == Spelled(stamp, 0) + "-" + Decimal(millis))
    decreases 1000 - k
  {
    hide Exists, Spelled, Candidate, Decimal;
    CandidateSpelled(stamp, 0);
    CandidateSpelled(stamp, k);
    if k < 1000 {
      if Exists(w, d, dir + [Spelled(stamp, k)]) {
        SearchIsFirstFree(w, d, dir, stamp, millis, k + 1);
      } else {
        assert FirstFree(w, d, dir, stamp, k);
      }
    }
  }

  /** The name chosen: the first free one of a thousand, counted from the bare stamp on, else that with the time. */
  lemma QuarantineNameIsFirstFree(w: World, d: Disk, dir: Path, stamp: string, millis: nat)
    ensures var target := QuarantineTarget(w, d, dir, stamp, millis, 0);
            || (exists i: nat :: FirstFree(w, d, dir, stamp, i) && target == Spelled(stamp, i))
            || ((forall i: nat :: i < 1000 ==> Exists(w, d, dir + [Spelled(stamp, i)])) &&
                target == Spelled(stamp, 0) + "-" + Decimal(millis))
  {
    SearchIsFirstFree(w, d, dir, stamp, millis, 0);
  }
}
