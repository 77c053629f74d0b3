/**
 When the reset's report is the true drop in the bytes of the two roots, told
 from the disk before the call: only a file that already bears a name the
 quarantine gives out can falsify it.
 */
module ResetReport {
  import opened Text
  import opened Paths
  import opened Sums
  import opened Volume
  import opened VolumeLaws
  import opened Storage
  import opened Reset
  import opened ResetProofs
  import opened ResetSafety
  import opened ResetExact

  //// The entries the quarantine's renames replace are those of the initial disk.

  /** An entry left alone is there or not, of the same kind and size, with the same below it. */
  lemma LeftAlone(d: Disk, e: Disk, p: Path)
    requires SameTree(d, p, e, p)
    ensures (p in d <==> p in e) && (p in d ==> d[p] == e[p])
    ensures Below(d, p) == Below(e, p) && Bytes(d, p) == Bytes(e, p)
  {
    assert p + [] == p;
    forall q | AtOrUnder(p, q)
      ensures Unchanged(d, e, q)
    {
      assert p + q[|p|..] == q;
    }
    forall q
      ensures q in Below(d, p) <==> q in Below(e, p)
    {
      assert Under(p, q) ==> AtOrUnder(p, q);
    }
    assert AtOrBelow(d, p) == AtOrBelow(e, p);
    SumSame(Size(d), Size(e), AtOrBelow(d, p));
  }

  /** Whether a sidecar follows the database. */
  predicate SidecarMoves(w: World, d: Disk, dir: Path, target: string, suffix: string) {
    && Exists(w, d, dir + [CATALOG_DB_FILENAME + suffix])
    && RenameIn(w, d, dir, CATALOG_DB_FILENAME + suffix, target + suffix).Some?
  }

  lemma ClobberedSum(w: World, d: Disk, dir: Path, stamp: string, millis: nat)
    requires QuarantineDatabase(w, d, dir, stamp, millis).Quarantined?
    ensures var target := QuarantineTarget(w, d, dir, stamp, millis, 0);
            var moved := RenameIn(w, d, dir, CATALOG_DB_FILENAME, target).value;
            var walMoved := MoveSidecar(w, moved, dir, target, "-wal");
            Clobbered(w, d, dir, stamp, millis) ==
            Bytes(d, dir + [target])
            + (if SidecarMoves(w, moved, dir, target, "-wal") then Bytes(moved, dir + [target + "-wal"]) else 0)
            + (if SidecarMoves(w, walMoved, dir, target, "-shm") then Bytes(walMoved, dir + [target + "-shm"]) else 0)
  {
    hide Exists, RenameIn, MoveSidecar, QuarantineTarget, Bytes;
  }

  /** A name of the data root apart from the database's and the target's is left alone by the first rename. */
  lemma OutlivesDatabase(d: Disk, dirs: StorageDirs, target: string, name: string)
    requires name != CATALOG_DB_FILENAME && name != target
    ensures var p := dirs.dataDir + [name];
            SameTree(d, p, Moved(d, dirs.dataDir + [CATALOG_DB_FILENAME], dirs.dataDir + [target]), p)
  {
    hide Moved, SameTree;
    SiblingsAreApart(dirs.dataDir, name, CATALOG_DB_FILENAME);
    SiblingsAreApart(dirs.dataDir, name, target);
    MovedElsewhere(d, dirs.dataDir + [CATALOG_DB_FILENAME], dirs.dataDir + [target], dirs.dataDir + [name]);
  }

  /** The disks between the renames, at a name none of the earlier ones concerns. */
  lemma BetweenRenames(w: World, d: Disk, dirs: StorageDirs, target: string, moved: Disk, name: string)
    requires Steady(d, dirs) && Steady(moved, dirs) && IsQuarantineName(target)
    requires moved == Moved(d, dirs.dataDir + [CATALOG_DB_FILENAME], dirs.dataDir + [target])
    requires name != CATALOG_DB_FILENAME && name != target
    ensures SameTree(d, dirs.dataDir + [name], moved, dirs.dataDir + [name])
    ensures name != CATALOG_DB_FILENAME + "-wal" && name != target + "-wal" ==>
              var p := dirs.dataDir + [name];
              SameTree(d, p, MoveSidecar(w, moved, dirs.dataDir, target, "-wal"), p)
  {
    hide Steady, Moved, SameTree, MoveSidecar, IsQuarantineName;
    var p := dirs.dataDir + [name];
    OutlivesDatabase(d, dirs, target, name);
    if name != CATALOG_DB_FILENAME + "-wal" && name != target + "-wal" {
      EntryOutlivesSidecar(w, moved, dirs, target, "-wal", name);
      SameTreeTrans(d, p, moved, p, MoveSidecar(w, moved, dirs.dataDir, target, "-wal"), p);
    }
  }

  /**
   The bytes that go uncounted are bytes of the initial disk: those at the
   target's name, and at the names its log and shared memory get if they follow.
   */
  lemma ClobberedIsInitial(w: World, d: Disk, dirs: StorageDirs, stamp: string, millis: nat)
    requires Steady(d, dirs)
    ensures var s := ClearedAndUncovered(w, d, dirs).disk;
            var q := QuarantineDatabase(w, s, dirs.dataDir, stamp, millis);
            if !q.Quarantined? then
              ResetClobbered(w, d, dirs, stamp, millis) == 0
            else
              var dir, target := dirs.dataDir, q.target;
              var moved := Moved(s, dir + [CATALOG_DB_FILENAME], dir + [target]);
              var walMoved := MoveSidecar(w, moved, dir, target, "-wal");
              ResetClobbered(w, d, dirs, stamp, millis) ==
              Bytes(d, dir + [target])
              + (if SidecarMoves(w, moved, dir, target, "-wal") then Bytes(d, dir + [target + "-wal"]) else 0)
              + (if SidecarMoves(w, walMoved, dir, target, "-shm") then Bytes(d, dir + [target + "-shm"]) else 0)
  {
    hide Steady, ClearedAndUncovered, Clobbered, Exists, RenameIn, Moved, MoveSidecar, SidecarMoves, QuarantineTarget;
    hide Bytes, SameTree, Unchanged, IsQuarantineName;
    var dir := dirs.dataDir;
    var s := ClearedAndUncovered(w, d, dirs).disk;
    var q := QuarantineDatabase(w, s, dir, stamp, millis);
    if q.Quarantined? {
      var target := q.target;
      ClearedFrame(w, d, dirs, []);
      ClobberedSum(w, s, dir, stamp, millis);
      TargetIsQuarantineName(w, s, dir, stamp, millis, 0);
      DifferentNames(target);
      DatabaseMoves(w, s, dirs, stamp, millis, []);
      var moved := Moved(s, dir + [CATALOG_DB_FILENAME], dir + [target]);
      BetweenRenames(w, s, dirs, target, moved, target + "-wal");
      BetweenRenames(w, s, dirs, target, moved, target + "-shm");
      NewNameOutlivesClearing(w, d, dirs, target, "");
      NewNameOutlivesClearing(w, d, dirs, target, "-wal");
      NewNameOutlivesClearing(w, d, dirs, target, "-shm");
      assert target + "" == target;
      LeftAlone(s, moved, dir + [target + "-wal"]);
      LeftAlone(s, MoveSidecar(w, moved, dir, target, "-wal"), dir + [target + "-shm"]);
    } else {
      NothingMoved(w, s, dir, stamp, millis);
    }
  }

  lemma NothingMoved(w: World, d: Disk, dir: Path, stamp: string, millis: nat)
    requires !QuarantineDatabase(w, d, dir, stamp, millis).Quarantined?
    ensures Clobbered(w, d, dir, stamp, millis) == 0
  {
    hide QuarantineDatabase;
  }

  lemma NewNameOutlivesClearing(w: World, d: Disk, dirs: StorageDirs, target: string, suffix: string)
    requires Steady(d, dirs) && IsQuarantineName(target)
    ensures var p := dirs.dataDir + [target + suffix];
            && SameTree(d, p, ClearedAndUncovered(w, d, dirs).disk, p)
            && Bytes(d, p) == Bytes(ClearedAndUncovered(w, d, dirs).disk, p)
  {
    hide Steady, ClearedAndUncovered, SameTree, Bytes;
    assert IsQuarantineName(target + suffix) by {
      assert target + suffix == target[..20] + (target[20..] + suffix);
    }
    NotClearedNames(target + suffix);
    EntryOutlivesClearing(w, d, dirs, target + suffix);
    LeftAlone(d, ClearedAndUncovered(w, d, dirs).disk, dirs.dataDir + [target + suffix]);
  }

  lemma NotClearedNames(name: string)
    requires IsQuarantineName(name)
    ensures name != GPU_FALLBACK_MARKER && name != COVERS_DIRNAME && |name| >= 20
  {
    assert name[0] == (CATALOG_DB_FILENAME + ".corrupt-")[0] == 't';
  }

  //// Exactness.

  /**
   With no target a link that leads below its root, the report is the true drop
   if and only if no rename replaces any byte.
   */
  lemma ReportIsDropUnlessReplaced(w: World, d: Disk, dirs: StorageDirs, stamp: string, millis: nat)
    requires Lists(w) && Sound(d, dirs) && HarmlessTargets(w, d, dirs)
    ensures var r := ResetAppData(w, d, dirs, stamp, millis);
            r.Finished? ==>
              && Total(d, dirs) == Total(r.disk, dirs) + r.freed + ResetClobbered(w, d, dirs, stamp, millis)
              && (r.freed == Total(d, dirs) - Total(r.disk, dirs) <==> ResetClobbered(w, d, dirs, stamp, millis) == 0)
  {
    hide Lists, Total, ResetPhantom, ResetClobbered, ResetAppData, HarmlessTargets, Canonical, WithinCap, Tree, Apart;
    ResetConserves(w, d, dirs, stamp, millis);
    NoPhantomAtAll(w, d, dirs, stamp, millis);
  }

  /** No entry of the data root has a name the quarantine could give out. */
  ghost predicate FreshNames(d: Disk, dir: Path) {
    forall name :: IsQuarantineName(name) ==> dir + [name] !in d
  }

  /** Then, with no such link among the targets, the reported bytes are exactly the drop. */
  lemma ResetReportIsExact(w: World, d: Disk, dirs: StorageDirs, stamp: string, millis: nat)
    requires Lists(w) && Sound(d, dirs) && HarmlessTargets(w, d, dirs) && FreshNames(d, dirs.dataDir)
    ensures var r := ResetAppData(w, d, dirs, stamp, millis);
            r.Finished? ==> r.freed == Total(d, dirs) - Total(r.disk, dirs)
  {
    hide Lists, Total, ResetClobbered, ResetAppData, HarmlessTargets, Canonical, WithinCap, Tree, Apart, Bytes;
    hide ClearedAndUncovered, SidecarMoves, MoveSidecar, Moved, QuarantineDatabase, IsQuarantineName;
    ReportIsDropUnlessReplaced(w, d, dirs, stamp, millis);
    ClobberedIsInitial(w, d, dirs, stamp, millis);
    var s := ClearedAndUncovered(w, d, dirs).disk;
    var q := QuarantineDatabase(w, s, dirs.dataDir, stamp, millis);
    if q.Quarantined? {
      QuarantinedAsTarget(w, s, dirs.dataDir, stamp, millis);
      FreshMeansNothing(d, dirs.dataDir, q.target);
    }
  }

  lemma QuarantinedAsTarget(w: World, d: Disk, dir: Path, stamp: string, millis: nat)
    requires QuarantineDatabase(w, d, dir, stamp, millis).Quarantined?
    ensures var q := QuarantineDatabase(w, d, dir, stamp, millis);
            q.target == QuarantineTarget(w, d, dir, stamp, millis, 0) && IsQuarantineName(q.target)
  {
    hide Exists, RenameIn, MoveSidecar, QuarantineTarget, IsQuarantineName;
    TargetIsQuarantineName(w, d, dir, stamp, millis, 0);
  }

  lemma FreshMeansNothing(d: Disk, dir: Path, target: string)
    requires Tree(d) && FreshNames(d, dir) && IsQuarantineName(target)
    ensures Bytes(d, dir + [target]) == Bytes(d, dir + [target + "-wal"]) == Bytes(d, dir + [target + "-shm"]) == 0
  {
    hide Tree, Bytes;
    forall suffix | suffix in SUFFIXES
      ensures IsQuarantineName(target + suffix)
    {
      assert (target + suffix)[..|target|] == target;
    }
    assert "" in SUFFIXES && "-wal" in SUFFIXES && "-shm" in SUFFIXES && target + "" == target;
    NothingThere(d, dir + [target]);
    NothingThere(d, dir + [target + "-wal"]);
    NothingThere(d, dir + [target + "-shm"]);
  }

  //// Where nothing is refused, exactly when, told from the initial disk alone.

  ghost predicate NeverLocked(w: World) {
    forall d: Disk, p: Path, q: Path :: !w.locked(d, p, q)
  }

  /** Neither the database's files nor any quarantine name is a link. */
  ghost predicate PlainNames(d: Disk, dir: Path) {
    && (forall suffix :: suffix in SUFFIXES ==> !IsLinkAt(d, dir + [CATALOG_DB_FILENAME + suffix]))
    && (forall name :: IsQuarantineName(name) ==> !IsLinkAt(d, dir + [name]))
  }

  /** Nothing, or an entry of the same kind with nothing below it, is in the way. */
  predicate Fits(d: Disk, from: Path, to: Path) {
    from in d && (to in d ==> (d[from] == Dir <==> d[to] == Dir) && Below(d, to) == {})
  }

  /** What follows the database, and into which name. */
  predicate Follows(d: Disk, dir: Path, target: string, suffix: string) {
    Fits(d, dir + [CATALOG_DB_FILENAME + suffix], dir + [target + suffix])
  }

  /** Bytes of the initial disk in the way of a renamed file. */
  ghost function InTheWay(d: Disk, dir: Path, target: string, suffix: string): nat {
    if Follows(d, dir, target, suffix) then Bytes(d, dir + [target + suffix]) else 0
  }

  lemma RenameIsFit(w: World, d: Disk, dir: Path, from: string, to: string)
    requires NeverLocked(w) && Canonical(d, dir)
    ensures RenameIn(w, d, dir, from, to).Some? <==> Fits(d, dir + [from], dir + [to])
  {
    hide Canonical, Moved;
    RenameInIs(w, d, dir, from, to);
  }

  lemma PlainExists(w: World, d: Disk, dir: Path, name: string)
    requires Canonical(d, dir) && !IsLinkAt(d, dir + [name])
    ensures Exists(w, d, dir + [name]) <==> dir + [name] in d
  {
    hide Canonical;
    EntryResolves(w, d, dir, name);
  }

  lemma SidecarMovesIfFit(w: World, d: Disk, e: Disk, dir: Path, target: string, suffix: string)
    requires NeverLocked(w) && Canonical(e, dir) && !IsLinkAt(d, dir + [CATALOG_DB_FILENAME + suffix])
    requires SameTree(d, dir + [CATALOG_DB_FILENAME + suffix], e, dir + [CATALOG_DB_FILENAME + suffix])
    requires SameTree(d, dir + [target + suffix], e, dir + [target + suffix])
    ensures SidecarMoves(w, e, dir, target, suffix) <==> Follows(d, dir, target, suffix)
  {
    hide Canonical, SameTree, Exists, RenameIn, Bytes;
    LeftAlone(d, e, dir + [CATALOG_DB_FILENAME + suffix]);
    LeftAlone(d, e, dir + [target + suffix]);
    PlainExists(w, e, dir, CATALOG_DB_FILENAME + suffix);
    RenameIsFit(w, e, dir, CATALOG_DB_FILENAME + suffix, target + suffix);
  }

  /** The clearing does not change which quarantine name is chosen. */
  lemma {:induction false} SameTarget(w: World, d: Disk, e: Disk, dir: Path, stamp: string, millis: nat, attempt: nat)
    requires Canonical(d, dir) && Canonical(e, dir)
    requires forall name :: IsQuarantineName(name) ==> !IsLinkAt(d, dir + [name]) && Unchanged(d, e, dir + [name])
    ensures QuarantineTarget(w, e, dir, stamp, millis, attempt) == QuarantineTarget(w, d, dir, stamp, millis, attempt)
    decreases QUARANTINE_ATTEMPTS - attempt
  {
    hide Canonical, Exists, Candidate, Decimal, IsQuarantineName;
    if attempt < QUARANTINE_ATTEMPTS {
      var name := Candidate(stamp, attempt);
      CandidateIsQuarantineName(stamp, attempt);
      PlainExists(w, d, dir, name);
      PlainExists(w, e, dir, name);
      SameTarget(w, d, e, dir, stamp, millis, attempt + 1);
    }
  }

  lemma CandidateIsQuarantineName(stamp: string, attempt: nat)
    ensures IsQuarantineName(Candidate(stamp, attempt))
  {
    hide Decimal;
  }

  /** The name chosen on the disk before the call. */
  function InitialTarget(w: World, d: Disk, dir: Path, stamp: string, millis: nat): string {
    QuarantineTarget(w, d, dir, stamp, millis, 0)
  }

  lemma TargetIsInitial(w: World, d: Disk, dirs: StorageDirs, stamp: string, millis: nat)
    requires Steady(d, dirs) && PlainNames(d, dirs.dataDir)
    ensures QuarantineTarget(w, ClearedAndUncovered(w, d, dirs).disk, dirs.dataDir, stamp, millis, 0) ==
            InitialTarget(w, d, dirs.dataDir, stamp, millis)
  {
    hide Canonical, ClearedAndUncovered, Unchanged, Apart, QuarantineTarget, SameTree, IsQuarantineName;
    var e := ClearedAndUncovered(w, d, dirs).disk;
    ClearedFrame(w, d, dirs, []);
    forall name | IsQuarantineName(name)
      ensures Unchanged(d, e, dirs.dataDir + [name])
    {
      NewNameOutlivesClearing(w, d, dirs, name, "");
      assert name + "" == name;
      SameTreeMeans(d, e, dirs.dataDir + [name]);
    }
    SameTarget(w, d, e, dirs.dataDir, stamp, millis, 0);
  }

  lemma SameTreeMeans(d: Disk, e: Disk, p: Path)
    requires SameTree(d, p, e, p)
    ensures Unchanged(d, e, p)
  {
    assert p + [] == p;
  }

  lemma DatabaseOutlivesClearing(w: World, d: Disk, dirs: StorageDirs, suffix: string)
    requires Steady(d, dirs) && suffix in SUFFIXES
    ensures var p := dirs.dataDir + [CATALOG_DB_FILENAME + suffix];
            SameTree(d, p, ClearedAndUncovered(w, d, dirs).disk, p)
  {
    hide Steady, ClearedAndUncovered, SameTree;
    NamesDiffer(CATALOG_DB_FILENAME + ".corrupt-", suffix, suffix);
    EntryOutlivesClearing(w, d, dirs, CATALOG_DB_FILENAME + suffix);
  }

  /** Whether the quarantine happens, and that nothing but what is in its way can refuse it. */
  lemma QuarantineIsInitial(w: World, d: Disk, dirs: StorageDirs, stamp: string, millis: nat)
    requires Steady(d, dirs) && PlainNames(d, dirs.dataDir) && NeverLocked(w)
    ensures var q := QuarantineDatabase(w, ClearedAndUncovered(w, d, dirs).disk, dirs.dataDir, stamp, millis);
            var target := InitialTarget(w, d, dirs.dataDir, stamp, millis);
            && (q.NoDatabase? <==> dirs.dataDir + [CATALOG_DB_FILENAME] !in d)
            && (q.Quarantined? <==> Follows(d, dirs.dataDir, target, ""))
            && (q.Quarantined? ==> q.target == target && IsQuarantineName(target))
  {
    hide Canonical, ClearedAndUncovered, Apart, QuarantineTarget, SameTree, Exists, RenameIn, MoveSidecar, Bytes,
         IsQuarantineName, InitialTarget;
    var dir, db := dirs.dataDir, CATALOG_DB_FILENAME;
    var e := ClearedAndUncovered(w, d, dirs).disk;
    var target := InitialTarget(w, d, dir, stamp, millis);
    ClearedFrame(w, d, dirs, []);
    TargetIsInitial(w, d, dirs, stamp, millis);
    TargetIsQuarantineName(w, e, dir, stamp, millis, 0);
    assert "" in SUFFIXES && db + "" == db && target + "" == target;
    DatabaseOutlivesClearing(w, d, dirs, "");
    NewNameOutlivesClearing(w, d, dirs, target, "");
    LeftAlone(d, e, dir + [db]);
    LeftAlone(d, e, dir + [target]);
    PlainExists(w, e, dir, db);
    RenameIsFit(w, e, dir, db, target);
  }

  /** The uncounted bytes, on the initial disk. */
  lemma ClobberedIsInTheWay(w: World, d: Disk, dirs: StorageDirs, stamp: string, millis: nat)
    requires Steady(d, dirs) && PlainNames(d, dirs.dataDir) && NeverLocked(w)
    requires Follows(d, dirs.dataDir, InitialTarget(w, d, dirs.dataDir, stamp, millis), "")
    ensures var dir, target := dirs.dataDir, InitialTarget(w, d, dirs.dataDir, stamp, millis);
            ResetClobbered(w, d, dirs, stamp, millis) ==
            InTheWay(d, dir, target, "") + InTheWay(d, dir, target, "-wal") + InTheWay(d, dir, target, "-shm")
  {
    hide Canonical, Apart, ClearedAndUncovered, ResetClobbered, Moved, MoveSidecar, SidecarMoves, InitialTarget;
    hide Bytes, SameTree, IsQuarantineName, QuarantineDatabase, Fits;
    var dir, db, target := dirs.dataDir, CATALOG_DB_FILENAME, InitialTarget(w, d, dirs.dataDir, stamp, millis);
    var s := ClearedAndUncovered(w, d, dirs).disk;
    QuarantineIsInitial(w, d, dirs, stamp, millis);
    ClobberedIsInitial(w, d, dirs, stamp, millis);
    ClearedFrame(w, d, dirs, []);
    DifferentNames(target);
    var moved := Moved(s, dir + [db], dir + [target]);
    var walMoved := MoveSidecar(w, moved, dir, target, "-wal");
    MoveFrame(s, dirs, db, target, []);
    SidecarFrame(w, moved, dirs, target, "-wal", []);
    assert target + "" == target && "-wal" in SUFFIXES && "-shm" in SUFFIXES;
    SuffixedBetween(w, d, dirs, target, moved, "-wal");
    SuffixedBetween(w, d, dirs, target, moved, "-shm");
    SidecarMovesIfFit(w, d, moved, dir, target, "-wal");
    SidecarMovesIfFit(w, d, walMoved, dir, target, "-shm");
  }

  /** From the initial disk to the one a sidecar is renamed on, its two names are left alone. */
  lemma SuffixedBetween(w: World, d: Disk, dirs: StorageDirs, target: string, moved: Disk, suffix: string)
    requires Steady(d, dirs) && Steady(moved, dirs) && IsQuarantineName(target) && suffix in {"-wal", "-shm"}
    requires var s := ClearedAndUncovered(w, d, dirs).disk;
             Steady(s, dirs) && moved == Moved(s, dirs.dataDir + [CATALOG_DB_FILENAME], dirs.dataDir + [target])
    ensures var e := if suffix == "-wal" then moved else MoveSidecar(w, moved, dirs.dataDir, target, "-wal");
            var from, to := dirs.dataDir + [CATALOG_DB_FILENAME + suffix], dirs.dataDir + [target + suffix];
            SameTree(d, from, e, from) && SameTree(d, to, e, to)
  {
    hide Steady, ClearedAndUncovered, Moved, MoveSidecar, SameTree, IsQuarantineName, Bytes;
    var s := ClearedAndUncovered(w, d, dirs).disk;
    var from, to := dirs.dataDir + [CATALOG_DB_FILENAME + suffix], dirs.dataDir + [target + suffix];
    var e := if suffix == "-wal" then moved else MoveSidecar(w, moved, dirs.dataDir, target, "-wal");
    DifferentNames(target);
    DatabaseOutlivesClearing(w, d, dirs, suffix);
    NewNameOutlivesClearing(w, d, dirs, target, suffix);
    BetweenRenames(w, s, dirs, target, moved, CATALOG_DB_FILENAME + suffix);
    BetweenRenames(w, s, dirs, target, moved, target + suffix);
    SameTreeTrans(d, from, s, from, e, from);
    SameTreeTrans(d, to, s, to, e, to);
  }

  /**
   Where no rename is refused and no link is involved, the disk before the call
   tells: the reset finishes if and only if there is no database or nothing of
   another kind is in its way, and its report is then the true drop if and only
   if no byte lies at the names its files move to.
   */
  lemma ReportIsDropExactlyWhen(w: World, d: Disk, dirs: StorageDirs, stamp: string, millis: nat)
    requires Lists(w) && Sound(d, dirs) && HarmlessTargets(w, d, dirs)
    requires PlainNames(d, dirs.dataDir) && NeverLocked(w)
    ensures var r := ResetAppData(w, d, dirs, stamp, millis);
            var dir, target := dirs.dataDir, InitialTarget(w, d, dirs.dataDir, stamp, millis);
            var database := dir + [CATALOG_DB_FILENAME];
            && (r.Finished? <==> (database in d ==> Follows(d, dir, target, "")))
            && (r.Finished? ==>
                  (r.freed == Total(d, dirs) - Total(r.disk, dirs) <==>
                   (database in d ==>
                      InTheWay(d, dir, target, "") + InTheWay(d, dir, target, "-wal")
                      + InTheWay(d, dir, target, "-shm") == 0)))
  {
    hide Lists, Total, HarmlessTargets, Canonical, WithinCap, Tree, Apart, ClearedAndUncovered, SweepSettings, Bytes;
    hide QuarantineDatabase, ResetClobbered, SidecarMoves, MoveSidecar, Moved, InitialTarget, PlainNames, InTheWay;
    ReportIsDropUnlessReplaced(w, d, dirs, stamp, millis);
    QuarantineIsInitial(w, d, dirs, stamp, millis);
    ClobberedIsInitial(w, d, dirs, stamp, millis);
    if Follows(d, dirs.dataDir, InitialTarget(w, d, dirs.dataDir, stamp, millis), "") {
      ClobberedIsInTheWay(w, d, dirs, stamp, millis);
    }
  }

  //// Where the log and the shared memory end up.

  lemma SidecarMovesOrStays(w: World, d: Disk, dirs: StorageDirs, target: string, suffix: string)
    requires Steady(d, dirs) && CATALOG_DB_FILENAME + suffix != target + suffix
    ensures var from, to := dirs.dataDir + [CATALOG_DB_FILENAME + suffix], dirs.dataDir + [target + suffix];
            var e := MoveSidecar(w, d, dirs.dataDir, target, suffix);
            if SidecarMoves(w, d, dirs.dataDir, target, suffix) then SameTree(d, from, e, to) else e == d
  {
    hide Canonical, Exists, RenameIn, Moved, SameTree;
    RenameInIs(w, d, dirs.dataDir, CATALOG_DB_FILENAME + suffix, target + suffix);
    if SidecarMoves(w, d, dirs.dataDir, target, suffix) {
      MovedTree(d, dirs.dataDir + [CATALOG_DB_FILENAME + suffix], dirs.dataDir + [target + suffix]);
    }
  }

  /** The place of a sidecar file after its rename was tried, on the disk of that moment. */
  lemma SidecarAfterRename(w: World, d: Disk, dirs: StorageDirs, e: Disk, target: string, suffix: string)
    requires NeverLocked(w) && Steady(e, dirs) && CATALOG_DB_FILENAME + suffix != target + suffix
    requires var from, to := dirs.dataDir + [CATALOG_DB_FILENAME + suffix], dirs.dataDir + [target + suffix];
             !IsLinkAt(d, from) && SameTree(d, from, e, from) && SameTree(d, to, e, to)
    ensures var from, to := dirs.dataDir + [CATALOG_DB_FILENAME + suffix], dirs.dataDir + [target + suffix];
            SameTree(d, from, MoveSidecar(w, e, dirs.dataDir, target, suffix),
                     if Follows(d, dirs.dataDir, target, suffix) then to else from)
  {
    hide Canonical, Apart, MoveSidecar, SidecarMoves, SameTree, Fits;
    var from, to := dirs.dataDir + [CATALOG_DB_FILENAME + suffix], dirs.dataDir + [target + suffix];
    SidecarMovesIfFit(w, d, e, dirs.dataDir, target, suffix);
    SidecarMovesOrStays(w, e, dirs, target, suffix);
    if Follows(d, dirs.dataDir, target, suffix) {
      SameTreeTrans(d, from, e, from, MoveSidecar(w, e, dirs.dataDir, target, suffix), to);
    }
  }

  /**
   Where no rename is refused and no name in play is a link: after a reset that
   moved the database, its log and its shared memory are beside it exactly if
   nothing of another kind is in their way, and otherwise where they were.
   */
  lemma SidecarFollowsExactlyWhen(w: World, d: Disk, dirs: StorageDirs, stamp: string, millis: nat, suffix: string)
    requires Steady(d, dirs) && PlainNames(d, dirs.dataDir) && NeverLocked(w) && suffix in {"-wal", "-shm"}
    ensures var r := ResetAppData(w, d, dirs, stamp, millis);
            QuarantinedAs(r).Some? ==>
              var from, to := CATALOG_DB_FILENAME + suffix, r.quarantined.value + suffix;
              SameTree(d, dirs.dataDir + [from], r.disk,
                       dirs.dataDir + [if Follows(d, dirs.dataDir, r.quarantined.value, suffix) then to else from])
  {
    hide Canonical, Apart, ClearedAndUncovered, QuarantineDatabase, SweepSettings, MoveSidecar, Moved, SameTree,
         PlainNames, IsQuarantineName, Fits, NeverLocked, QuarantineTarget, InitialTarget;
    var dir := dirs.dataDir;
    var s := ClearedAndUncovered(w, d, dirs);
    var q := QuarantineDatabase(w, s.disk, dir, stamp, millis);
    if q.Quarantined? {
      QuarantineIsInitial(w, d, dirs, stamp, millis);
      ClearedFrame(w, d, dirs, []);
      SidecarInQuarantine(w, d, dirs, stamp, millis, suffix);
      QuarantineFrame(w, s.disk, dirs, stamp, millis, []);
      var name := if Follows(d, dir, q.target, suffix) then q.target + suffix else CATALOG_DB_FILENAME + suffix;
      var t := s.(disk := q.disk);
      EntryOutlivesSettings(w, t, dirs, name);
      SameTreeTrans(d, dir + [CATALOG_DB_FILENAME + suffix], q.disk, dir + [name],
                    SweepSettings(w, t, dirs.configDir).disk, dir + [name]);
    }
  }

  lemma SidecarInQuarantine(w: World, d: Disk, dirs: StorageDirs, stamp: string, millis: nat, suffix: string)
    requires Steady(d, dirs) && PlainNames(d, dirs.dataDir) && NeverLocked(w) && suffix in {"-wal", "-shm"}
    requires QuarantineDatabase(w, ClearedAndUncovered(w, d, dirs).disk, dirs.dataDir, stamp, millis).Quarantined?
    ensures var q := QuarantineDatabase(w, ClearedAndUncovered(w, d, dirs).disk, dirs.dataDir, stamp, millis);
            var from, to := CATALOG_DB_FILENAME + suffix, q.target + suffix;
            SameTree(d, dirs.dataDir + [from], q.disk,
                     dirs.dataDir + [if Follows(d, dirs.dataDir, q.target, suffix) then to else from])
  {
    hide Canonical, Apart, ClearedAndUncovered, MoveSidecar, Moved, SameTree, IsQuarantineName, Fits, NeverLocked,
         RenameIn, QuarantineDatabase, QuarantineTarget;
    var dir := dirs.dataDir;
    var s := ClearedAndUncovered(w, d, dirs).disk;
    var target := QuarantineTarget(w, s, dir, stamp, millis, 0);
    ClearedFrame(w, d, dirs, []);
    TargetIsQuarantineName(w, s, dir, stamp, millis, 0);
    QuarantinedNow(w, s, dirs, stamp, millis);
    DatabaseMoves(w, s, dirs, stamp, millis, []);
    DifferentNames(target);
    var moved := Moved(s, dir + [CATALOG_DB_FILENAME], dir + [target]);
    var walMoved := MoveSidecar(w, moved, dir, target, "-wal");
    var end := MoveSidecar(w, walMoved, dir, target, "-shm");
    SidecarFrame(w, moved, dirs, target, "-wal", []);
    assert suffix in SUFFIXES;
    SuffixedBetween(w, d, dirs, target, moved, suffix);
    if suffix == "-wal" {
      SidecarAfterRename(w, d, dirs, moved, target, "-wal");
      EntryOutlivesSidecar(w, walMoved, dirs, target, "-shm", target + "-wal");
      EntryOutlivesSidecar(w, walMoved, dirs, target, "-shm", CATALOG_DB_FILENAME + "-wal");
      var name := if Follows(d, dir, target, suffix) then target + suffix else CATALOG_DB_FILENAME + suffix;
      SameTreeTrans(d, dir + [CATALOG_DB_FILENAME + suffix], walMoved, dir + [name], end, dir + [name]);
    } else {
      SidecarAfterRename(w, d, dirs, walMoved, target, "-shm");
    }
  }
}
