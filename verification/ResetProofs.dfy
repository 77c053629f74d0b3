/**
 The reset's byte ledger: one removal, a sweep of them, the quarantine's
 renames, and the whole reset. Every byte of the two roots is left, reported or
 replaced.
 */
module ResetProofs {
  import opened Text
  import opened Paths
  import opened Walk
  import opened Volume
  import opened VolumeLaws
  import opened Storage
  import opened Reset

  //// Hypotheses.

  /** A root reached without links, each of its entries within the cap of a walk. */
  ghost predicate Rooted(d: Disk, root: Path) {
    Canonical(d, root) && forall name: string :: WithinCap(d, root + [name])
  }

  ghost predicate Sound(d: Disk, dirs: StorageDirs) {
    Tree(d) && Rooted(d, dirs.dataDir) && Rooted(d, dirs.configDir) && Apart(dirs.dataDir, dirs.configDir)
  }

  ghost function Total(d: Disk, dirs: StorageDirs): nat {
    RegionBytes(d, dirs.dataDir, dirs.configDir)
  }

  predicate OwnTarget(dirs: StorageDirs, t: Target) {
    t.root == dirs.dataDir || t.root == dirs.configDir
  }

  //// What the program's count adds and misses.

  /** Bytes counted for a removed link: its linked directory's, none of which goes. */
  ghost function PhantomOf(w: World, d: Disk, t: Target): nat {
    if MayRemove(w, d, t) then Phantom(w, d, Place(t)) else 0
  }

  ghost function SweepPhantom(w: World, s: Sweep, targets: seq<Target>): nat
    decreases |targets|
  {
    if targets == [] then 0
    else PhantomOf(w, s.disk, targets[0]) + SweepPhantom(w, RemoveOne(w, s, targets[0]), targets[1..])
  }

  /** Bytes of an entry that a sidecar's rename replaces. */
  ghost function SidecarClobbered(w: World, d: Disk, dir: Path, target: string, suffix: string): nat {
    if Exists(w, d, dir + [CATALOG_DB_FILENAME + suffix]) &&
      RenameIn(w, d, dir, CATALOG_DB_FILENAME + suffix, target + suffix).Some? then
      Bytes(d, dir + [target + suffix])
    else
      0
  }

  ghost function Clobbered(w: World, d: Disk, dir: Path, stamp: string, millis: nat): nat {
    if !QuarantineDatabase(w, d, dir, stamp, millis).Quarantined? then
      0
    else
      var target := QuarantineTarget(w, d, dir, stamp, millis, 0);
      var moved := RenameIn(w, d, dir, CATALOG_DB_FILENAME, target).value;
      Bytes(d, dir + [target]) + SidecarClobbered(w, moved, dir, target, "-wal")
      + SidecarClobbered(w, MoveSidecar(w, moved, dir, target, "-wal"), dir, target, "-shm")
  }

  //// One removal, then a sweep of them.

  lemma RemovalIsRm(w: World, d: Disk, t: Target)
    requires Canonical(d, t.root)
    ensures AfterRemoval(w, d, t) == if MayRemove(w, d, t) then Rm(d, Place(t)) else d
  {
    EntryIsItself(w, d, t.root, t.name);
  }

  lemma RmKeepsRooted(d: Disk, p: Path, root: Path)
    requires Rooted(d, root)
    ensures Rooted(Rm(d, p), root)
  {
    hide Canonical, WithinCap, Rm;
    RmKeepsPaths(d, p, root);
    forall name: string
      ensures WithinCap(Rm(d, p), root + [name])
    {
      RmKeepsPaths(d, p, root + [name]);
    }
  }

  lemma RemovalKeepsSound(w: World, d: Disk, dirs: StorageDirs, t: Target)
    requires Sound(d, dirs) && OwnTarget(dirs, t)
    ensures Sound(AfterRemoval(w, d, t), dirs)
  {
    hide Tree, Canonical, AfterRemoval, MayRemove, Apart, Rm, WithinCap;
    RemovalIsRm(w, d, t);
    if MayRemove(w, d, t) {
      RmKeepsTree(d, Place(t));
      RmKeepsRooted(d, Place(t), dirs.dataDir);
      RmKeepsRooted(d, Place(t), dirs.configDir);
    }
  }

  lemma OwnPlace(dirs: StorageDirs, t: Target)
    requires OwnTarget(dirs, t)
    ensures InRegion(dirs.dataDir, dirs.configDir, Place(t))
  {
    assert Place(t)[..|t.root|] == t.root;
  }

  lemma RemovalLedger(w: World, s: Sweep, dirs: StorageDirs, t: Target)
    requires Lists(w) && Sound(s.disk, dirs) && OwnTarget(dirs, t)
    ensures var e := RemoveOne(w, s, t);
            Total(s.disk, dirs) + s.freed + PhantomOf(w, s.disk, t) == Total(e.disk, dirs) + e.freed
  {
    hide Lists, Tree, Canonical, MayRemove, Apart, Rm, WithinCap, DirectoryBytes, RegionBytes, Bytes, AfterRemoval,
         Phantom, InRegion;
    RemovalIsRm(w, s.disk, t);
    if MayRemove(w, s.disk, t) {
      assert WithinCap(s.disk, t.root + [t.name]);
      EntryWalk(w, s.disk, t.root, t.name);
      OwnPlace(dirs, t);
      RmLedger(s.disk, dirs.dataDir, dirs.configDir, Place(t));
    }
  }

  /**
   One removal's report is its true drop exactly when its target is not a link,
   or leads to nothing that has bytes; a caller can tell both beforehand.
   */
  lemma RemovalReportIsExactlyWhen(w: World, s: Sweep, dirs: StorageDirs, t: Target)
    requires Lists(w) && Sound(s.disk, dirs) && OwnTarget(dirs, t) && MayRemove(w, s.disk, t)
    ensures var e := RemoveOne(w, s, t);
            e.freed - s.freed == Total(s.disk, dirs) - Total(e.disk, dirs) <==>
            (IsLinkAt(s.disk, Place(t)) ==> DirectoryBytes(View(w, s.disk), Place(t)) == 0)
  {
    hide Lists, Sound, Total, RemoveOne, MayRemove, DirectoryBytes, View;
    RemovalLedger(w, s, dirs, t);
  }

  predicate OwnTargets(dirs: StorageDirs, targets: seq<Target>) {
    forall t :: t in targets ==> OwnTarget(dirs, t)
  }

  lemma {:induction false} SweepLedger(w: World, s: Sweep, dirs: StorageDirs, targets: seq<Target>)
    requires Lists(w) && Sound(s.disk, dirs) && OwnTargets(dirs, targets)
    ensures var e := RemoveAll(w, s, targets);
            && Sound(e.disk, dirs)
            && Total(s.disk, dirs) + s.freed + SweepPhantom(w, s, targets) == Total(e.disk, dirs) + e.freed
    decreases |targets|
  {
    hide Lists, Sound, Total, PhantomOf, AfterRemoval, Freed;
    if targets != [] {
      RemovalKeepsSound(w, s.disk, dirs, targets[0]);
      RemovalLedger(w, s, dirs, targets[0]);
      RemoveOneDisk(w, s, targets[0]);
      SweepLedger(w, RemoveOne(w, s, targets[0]), dirs, targets[1..]);
    }
  }

  lemma RemoveOneDisk(w: World, s: Sweep, t: Target)
    ensures RemoveOne(w, s, t).disk == AfterRemoval(w, s.disk, t)
  {
  }

  lemma {:induction false} TargetsAreOwn(dirs: StorageDirs, root: Path, names: seq<string>)
    requires root == dirs.dataDir || root == dirs.configDir
    ensures OwnTargets(dirs, TargetsIn(root, names))
    decreases |names|
  {
    if names != [] {
      TargetsAreOwn(dirs, root, names[1..]);
    }
  }

  //// Renames in the data root.

  lemma RenameInIs(w: World, d: Disk, dir: Path, a: string, b: string)
    requires Canonical(d, dir)
    ensures RenameIn(w, d, dir, a, b) == Rename(w, d, dir + [a], dir + [b])
  {
    hide EntryOf, Rename;
    EntryIsItself(w, d, dir, a);
    EntryIsItself(w, d, dir, b);
  }

  lemma RenameKeepsRooted(d: Disk, dir: Path, a: string, b: string)
    requires Rooted(d, dir) && a != b
    ensures Rooted(Moved(d, dir + [a], dir + [b]), dir)
  {
    hide Canonical, Moved, Apart, WithinCap;
    var from, to := dir + [a], dir + [b];
    SiblingsAreApart(dir, a, b);
    MovedKeepsCanonical(d, from, to, dir);
    forall name: string
      ensures WithinCap(Moved(d, from, to), dir + [name])
    {
      if name == b {
        assert WithinCap(d, from);
        MovedCarriesCap(d, from, to);
      } else if name == a {
        MovedLeavesNothing(d, from, to);
        NothingIsWithinCap(Moved(d, from, to), from);
      } else {
        SiblingsAreApart(dir, name, b);
        MovedKeepsCap(d, from, to, dir + [name]);
      }
    }
  }

  lemma NothingIsWithinCap(d: Disk, p: Path)
    requires Below(d, p) == {}
    ensures WithinCap(d, p)
  {
  }

  lemma RenameElsewhereKeepsRooted(d: Disk, dirs: StorageDirs, a: string, b: string)
    requires Rooted(d, dirs.configDir) && Apart(dirs.dataDir, dirs.configDir)
    ensures Rooted(Moved(d, dirs.dataDir + [a], dirs.dataDir + [b]), dirs.configDir)
  {
    hide Canonical, Moved, Apart, WithinCap, AtOrUnder;
    var from, to := dirs.dataDir + [a], dirs.dataDir + [b];
    DataEntryOutside(dirs, b);
    MovedKeepsCanonical(d, from, to, dirs.configDir);
    forall name: string
      ensures WithinCap(Moved(d, from, to), dirs.configDir + [name])
    {
      EntriesOfApartRoots(dirs.dataDir, dirs.configDir, b, name);
      ApartSwap(dirs.configDir + [name], to);
      MovedKeepsCap(d, from, to, dirs.configDir + [name]);
    }
  }

  lemma RenameKeeps(w: World, d: Disk, dirs: StorageDirs, a: string, b: string)
    requires Sound(d, dirs) && a != b && RenameIn(w, d, dirs.dataDir, a, b).Some?
    ensures var e := RenameIn(w, d, dirs.dataDir, a, b).value;
            && Sound(e, dirs)
            && e == Moved(d, dirs.dataDir + [a], dirs.dataDir + [b]) && dirs.dataDir + [a] in d
            && Total(d, dirs) == Total(e, dirs) + Bytes(d, dirs.dataDir + [b])
  {
    hide Tree, Canonical, WithinCap, RegionBytes, Bytes, Moved, InRegion, Apart, AtOrUnder;
    var dir := dirs.dataDir;
    RenameInIs(w, d, dir, a, b);
    MovedKeepsTree(d, dir, a, b);
    RenameKeepsRooted(d, dir, a, b);
    RenameElsewhereKeepsRooted(d, dirs, a, b);
    OwnPlace(dirs, Target(dir, a));
    OwnPlace(dirs, Target(dir, b));
    SiblingsAreApart(dir, a, b);
    MovedLedger(d, dir, dirs.configDir, dir + [a], dir + [b]);
  }

  lemma ApartSwap(p: Path, q: Path)
    ensures Apart(p, q) <==> Apart(q, p)
  {
  }

  lemma DataEntryOutside(dirs: StorageDirs, name: string)
    requires Apart(dirs.dataDir, dirs.configDir)
    ensures !AtOrUnder(dirs.dataDir + [name], dirs.dataDir)
    ensures !AtOrUnder(dirs.dataDir + [name], dirs.configDir)
  {
    var dir := dirs.dataDir;
    if |dir| < |dirs.configDir| {
      assert dirs.configDir[..|dir| + 1][..|dir|] == dirs.configDir[..|dir|];
    }
  }

  //// The names in play are all different.

  /** Every quarantine name is the database's name and ".corrupt-" and more. */
  predicate IsQuarantineName(name: string) {
    CATALOG_DB_FILENAME + ".corrupt-" <= name
  }

  lemma {:induction false} TargetIsQuarantineName(w: World, d: Disk, dir: Path, stamp: string, millis: nat,
                                                  attempt: nat)
    ensures IsQuarantineName(QuarantineTarget(w, d, dir, stamp, millis, attempt))
    decreases QUARANTINE_ATTEMPTS - attempt
  {
    hide Exists, Decimal;
    if attempt < QUARANTINE_ATTEMPTS && Exists(w, d, dir + [Candidate(stamp, attempt)]) {
      TargetIsQuarantineName(w, d, dir, stamp, millis, attempt + 1);
    }
  }

  const SUFFIXES: set<string> := {"", "-wal", "-shm"}

  lemma NamesDiffer(target: string, x: string, y: string)
    requires IsQuarantineName(target) && x in SUFFIXES && y in SUFFIXES
    ensures CATALOG_DB_FILENAME + x != target + y
    ensures x != y ==> CATALOG_DB_FILENAME + x != CATALOG_DB_FILENAME + y && target + x != target + y
    ensures COVERS_DIRNAME != CATALOG_DB_FILENAME + x && GPU_FALLBACK_MARKER != CATALOG_DB_FILENAME + x
  {
    assert (target + y)[11] == '.' by {
      assert target[..20] == CATALOG_DB_FILENAME + ".corrupt-";
    }
    assert |CATALOG_DB_FILENAME| == 11 && (CATALOG_DB_FILENAME + x)[0] == 't';
    if x != "" {
      assert (CATALOG_DB_FILENAME + x)[11] == x[0];
    }
    if x != y {
      assert (CATALOG_DB_FILENAME + x)[11..] == x && (CATALOG_DB_FILENAME + y)[11..] == y;
      assert (target + x)[|target|..] == x && (target + y)[|target|..] == y;
    }
  }

  //// Conservation.

  lemma SidecarLedger(w: World, d: Disk, dirs: StorageDirs, target: string, suffix: string)
    requires Sound(d, dirs) && IsQuarantineName(target) && suffix in SUFFIXES
    ensures var e := MoveSidecar(w, d, dirs.dataDir, target, suffix);
            && Sound(e, dirs)
            && Total(d, dirs) == Total(e, dirs) + SidecarClobbered(w, d, dirs.dataDir, target, suffix)
  {
    hide Sound, Total, Bytes, RenameIn, Exists;
    NamesDiffer(target, suffix, suffix);
    if RenameIn(w, d, dirs.dataDir, CATALOG_DB_FILENAME + suffix, target + suffix).Some? {
      RenameKeeps(w, d, dirs, CATALOG_DB_FILENAME + suffix, target + suffix);
    }
  }

  lemma QuarantineLedger(w: World, d: Disk, dirs: StorageDirs, stamp: string, millis: nat)
    requires Sound(d, dirs)
    ensures var r := QuarantineDatabase(w, d, dirs.dataDir, stamp, millis);
            r.Quarantined? ==>
              && Sound(r.disk, dirs)
              && Total(d, dirs) == Total(r.disk, dirs) + Clobbered(w, d, dirs.dataDir, stamp, millis)
  {
    if QuarantineDatabase(w, d, dirs.dataDir, stamp, millis).Quarantined? {
      hide Sound, Total, Bytes, RenameIn, Exists, MoveSidecar, QuarantineTarget, SidecarClobbered;
      var dir := dirs.dataDir;
      var target := QuarantineTarget(w, d, dir, stamp, millis, 0);
      TargetIsQuarantineName(w, d, dir, stamp, millis, 0);
      NamesDiffer(target, "", "");
      assert CATALOG_DB_FILENAME + "" == CATALOG_DB_FILENAME && target + "" == target;
      RenameKeeps(w, d, dirs, CATALOG_DB_FILENAME, target);
      var moved := RenameIn(w, d, dir, CATALOG_DB_FILENAME, target).value;
      SidecarLedger(w, moved, dirs, target, "-wal");
      SidecarLedger(w, MoveSidecar(w, moved, dir, target, "-wal"), dirs, target, "-shm");
    }
  }

  /** Bytes the reset counts though they stay: the directories behind the links it removes. */
  ghost function ResetPhantom(w: World, d: Disk, dirs: StorageDirs, stamp: string, millis: nat): nat {
    var cleared := RemoveAll(w, Sweep(d, [], 0), ClearTargets(dirs));
    var s := ClearedAndUncovered(w, d, dirs);
    var q := QuarantineDatabase(w, s.disk, dirs.dataDir, stamp, millis);
    var t := if q.Quarantined? then s.(disk := q.disk) else s;
    SweepPhantom(w, Sweep(d, [], 0), ClearTargets(dirs))
    + PhantomOf(w, cleared.disk, Target(dirs.dataDir, COVERS_DIRNAME))
    + SweepPhantom(w, t, TargetsIn(dirs.configDir, Settings(ConfigNames(w, t.disk, dirs.configDir))))
  }

  /** Bytes that go without being counted: entries replaced by the quarantined files. */
  ghost function ResetClobbered(w: World, d: Disk, dirs: StorageDirs, stamp: string, millis: nat): nat {
    Clobbered(w, ClearedAndUncovered(w, d, dirs).disk, dirs.dataDir, stamp, millis)
  }

  lemma ClearedLedger(w: World, d: Disk, dirs: StorageDirs)
    requires Lists(w) && Sound(d, dirs)
    ensures var cleared := RemoveAll(w, Sweep(d, [], 0), ClearTargets(dirs));
            var s := ClearedAndUncovered(w, d, dirs);
            && Sound(cleared.disk, dirs) && Sound(s.disk, dirs)
            && Total(d, dirs) + SweepPhantom(w, Sweep(d, [], 0), ClearTargets(dirs))
               + PhantomOf(w, cleared.disk, Target(dirs.dataDir, COVERS_DIRNAME)) == Total(s.disk, dirs) + s.freed
  {
    hide Lists, Sound, Total, RemoveAll, SweepPhantom, PhantomOf, RemoveOne;
    ClearTargetsAreOwn(dirs);
    SweepLedger(w, Sweep(d, [], 0), dirs, ClearTargets(dirs));
    var cleared := RemoveAll(w, Sweep(d, [], 0), ClearTargets(dirs));
    var s := Sweep(cleared.disk, [], cleared.freed);
    RemovalKeepsSound(w, s.disk, dirs, Target(dirs.dataDir, COVERS_DIRNAME));
    RemovalLedger(w, s, dirs, Target(dirs.dataDir, COVERS_DIRNAME));
    RemoveOneDisk(w, s, Target(dirs.dataDir, COVERS_DIRNAME));
  }

  lemma ClearTargetsAreOwn(dirs: StorageDirs)
    ensures OwnTargets(dirs, ClearTargets(dirs))
  {
    hide TargetsIn;
    TargetsAreOwn(dirs, dirs.configDir, BROWSER_CACHE_DIRS);
  }

  lemma SettingsLedger(w: World, s: Sweep, dirs: StorageDirs)
    requires Lists(w) && Sound(s.disk, dirs)
    ensures var e := SweepSettings(w, s, dirs.configDir);
            && Sound(e.disk, dirs)
            && Total(s.disk, dirs) + s.freed
               + SweepPhantom(w, s, TargetsIn(dirs.configDir, Settings(ConfigNames(w, s.disk, dirs.configDir))))
               == Total(e.disk, dirs) + e.freed
  {
    hide Lists, Sound, Total, RemoveAll, SweepPhantom, TargetsIn, Settings, ConfigNames, OwnTargets;
    TargetsAreOwn(dirs, dirs.configDir, Settings(ConfigNames(w, s.disk, dirs.configDir)));
    SweepLedger(w, s, dirs, TargetsIn(dirs.configDir, Settings(ConfigNames(w, s.disk, dirs.configDir))));
  }

  /**
   Every byte of the two roots is accounted for: what was there, and what the
   links it removed made it count, is what is left, what it reports as freed,
   and what its renames replaced. So the report is the true drop exactly when
   the phantom and the clobbered bytes balance.
   */
  lemma ResetConserves(w: World, d: Disk, dirs: StorageDirs, stamp: string, millis: nat)
    requires Lists(w) && Sound(d, dirs)
    ensures var r := ResetAppData(w, d, dirs, stamp, millis);
            var phantom := ResetPhantom(w, d, dirs, stamp, millis);
            var clobbered := ResetClobbered(w, d, dirs, stamp, millis);
            r.Finished? ==>
              && Total(d, dirs) + phantom == Total(r.disk, dirs) + r.freed + clobbered
              && (r.freed == Total(d, dirs) - Total(r.disk, dirs) <==> phantom == clobbered)
  {
    hide Lists, Sound, Total, ClearedAndUncovered, SweepPhantom, PhantomOf, SweepSettings, QuarantineDatabase,
         ClearTargets, RemoveAll, TargetsIn, Settings, ConfigNames;
    ClearedLedger(w, d, dirs);
    var s := ClearedAndUncovered(w, d, dirs);
    var q := QuarantineDatabase(w, s.disk, dirs.dataDir, stamp, millis);
    if q.Quarantined? {
      QuarantineLedger(w, s.disk, dirs, stamp, millis);
      SettingsLedger(w, s.(disk := q.disk), dirs);
    } else {
      SettingsLedger(w, s, dirs);
    }
  }
}
