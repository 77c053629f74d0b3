/**
 A reset none of whose targets is a link that leads below its root counts
 nothing that stays; one without any link among its targets that nothing
 refuses leaves nothing behind.
 */
module ResetExact {
  import opened Text
  import opened Paths
  import opened Walk
  import opened Volume
  import opened VolumeLaws
  import opened Storage
  import opened Reset
  import opened ResetProofs
  import opened ResetSafety

  //// Without links into its own root nothing is counted that stays.

  /** On whatever disk, a link at the target's place leads nowhere below its root. */
  ghost predicate LeadsOut(w: World, t: Target) {
    forall d: Disk ::
      var q := w.follow(d, Place(t));
      q.Some? ==> !StartsBelow(t.root, q.value)
  }

  /** The target is no link, or one that is never removed. */
  ghost predicate Harmless(w: World, d: Disk, t: Target) {
    IsLinkAt(d, Place(t)) ==> LeadsOut(w, t)
  }

  ghost predicate AllHarmless(w: World, d: Disk, targets: seq<Target>) {
    forall t :: t in targets ==> Harmless(w, d, t)
  }

  lemma HarmlessIsNoPhantom(w: World, d: Disk, dirs: StorageDirs, t: Target)
    requires Steady(d, dirs) && OwnTarget(dirs, t) && Harmless(w, d, t)
    ensures PhantomOf(w, d, t) == 0
  {
    hide RealPathOf, ThroughLink, StartsBelow, Canonical, DirectoryBytes;
    RootResolves(w, d, t.root);
    EntryResolves(w, d, t.root, t.name);
  }

  lemma RootResolves(w: World, d: Disk, root: Path)
    requires Canonical(d, root)
    ensures RealPathOf(w, d, root) == if root in d then Some(root) else None
  {
    assert root[..|root|] == root;
  }

  lemma {:induction false} NoPhantomInSweep(w: World, s: Sweep, dirs: StorageDirs, targets: seq<Target>)
    requires Steady(s.disk, dirs) && OwnTargets(dirs, targets) && AllHarmless(w, s.disk, targets)
    ensures SweepPhantom(w, s, targets) == 0
    decreases |targets|
  {
    hide Steady, RemoveOne, PhantomOf, LeadsOut, Place, OwnTarget;
    if targets != [] {
      var e := RemoveOne(w, s, targets[0]);
      HarmlessIsNoPhantom(w, s.disk, dirs, targets[0]);
      RemovalFrame(w, s, dirs, targets[0], []);
      forall t | t in targets[1..]
        ensures Harmless(w, e.disk, t)
      {
        RemovalFrame(w, s, dirs, targets[0], Place(t));
        assert t in targets && Harmless(w, s.disk, t);
      }
      NoPhantomInSweep(w, e, dirs, targets[1..]);
    }
  }

  /** No target of the reset is a link that leads below its root. */
  ghost predicate HarmlessTargets(w: World, d: Disk, dirs: StorageDirs) {
    && Harmless(w, d, Target(dirs.dataDir, GPU_FALLBACK_MARKER)) && Harmless(w, d, Target(dirs.dataDir, COVERS_DIRNAME))
    && (forall name: string :: Harmless(w, d, Target(dirs.configDir, name)))
  }

  lemma PlainIsHarmless(w: World, d: Disk, dirs: StorageDirs)
    requires PlainTargets(d, dirs)
    ensures HarmlessTargets(w, d, dirs)
  {
    hide LeadsOut;
  }

  lemma {:induction false} ConfigTargetsHarmless(w: World, d: Disk, dirs: StorageDirs, names: seq<string>)
    requires forall name: string :: Harmless(w, d, Target(dirs.configDir, name))
    ensures AllHarmless(w, d, TargetsIn(dirs.configDir, names))
    decreases |names|
  {
    hide Harmless;
    if names != [] {
      ConfigTargetsHarmless(w, d, dirs, names[1..]);
    }
  }

  //// Without any link among the targets.

  predicate NoneLinks(d: Disk, targets: seq<Target>) {
    forall t :: t in targets ==> !IsLinkAt(d, Place(t))
  }

  /** No target of the reset is a link. */
  ghost predicate PlainTargets(d: Disk, dirs: StorageDirs) {
    && !IsLinkAt(d, dirs.dataDir + [GPU_FALLBACK_MARKER]) && !IsLinkAt(d, dirs.dataDir + [COVERS_DIRNAME])
    && (forall name: string :: !IsLinkAt(d, dirs.configDir + [name]))
  }

  lemma {:induction false} ConfigTargetsPlain(d: Disk, dirs: StorageDirs, names: seq<string>)
    requires forall name: string :: !IsLinkAt(d, dirs.configDir + [name])
    ensures NoneLinks(d, TargetsIn(dirs.configDir, names))
    decreases |names|
  {
    if names != [] {
      ConfigTargetsPlain(d, dirs, names[1..]);
    }
  }

  /** What the sweep of the settings starts from has the config root's entries as they were, or fewer. */
  lemma ConfigOnlyShrinks(w: World, d: Disk, dirs: StorageDirs, stamp: string, millis: nat, q: Path)
    requires Steady(d, dirs) && Under(dirs.configDir, q)
    ensures var s := ClearedAndUncovered(w, d, dirs);
            var quarantine := QuarantineDatabase(w, s.disk, dirs.dataDir, stamp, millis);
            Steady(s.disk, dirs) &&
            (quarantine.Quarantined? ==> Steady(quarantine.disk, dirs) && Unchanged(s.disk, quarantine.disk, q)) &&
            (q in s.disk ==> q in d && d[q] == s.disk[q])
  {
    hide Steady, ClearedAndUncovered, QuarantineDatabase, Unchanged, IsQuarantineName;
    ClearedFrame(w, d, dirs, q);
    var s := ClearedAndUncovered(w, d, dirs);
    if QuarantineDatabase(w, s.disk, dirs.dataDir, stamp, millis).Quarantined? {
      QuarantineConfig(w, s.disk, dirs, stamp, millis, q);
    }
  }

  lemma QuarantineConfig(w: World, d: Disk, dirs: StorageDirs, stamp: string, millis: nat, q: Path)
    requires Steady(d, dirs) && AtOrUnder(dirs.configDir, q)
    requires QuarantineDatabase(w, d, dirs.dataDir, stamp, millis).Quarantined?
    ensures var r := QuarantineDatabase(w, d, dirs.dataDir, stamp, millis);
            Steady(r.disk, dirs) && Unchanged(d, r.disk, q)
  {
    hide Canonical, QuarantineDatabase, Unchanged;
    forall n: string
      ensures !AtOrUnder(dirs.dataDir + [n], q)
    {
      ConfigNotBelowData(dirs, n, q);
    }
    QuarantineFrame(w, d, dirs, stamp, millis, q);
  }

  lemma QuarantinedNow(w: World, d: Disk, dirs: StorageDirs, stamp: string, millis: nat)
    requires QuarantineDatabase(w, d, dirs.dataDir, stamp, millis).Quarantined?
    ensures var target := QuarantineTarget(w, d, dirs.dataDir, stamp, millis, 0);
            var moved := RenameIn(w, d, dirs.dataDir, CATALOG_DB_FILENAME, target);
            && moved.Some?
            && QuarantineDatabase(w, d, dirs.dataDir, stamp, millis) ==
               var walMoved := MoveSidecar(w, moved.value, dirs.dataDir, target, "-wal");
               Quarantined(MoveSidecar(w, walMoved, dirs.dataDir, target, "-shm"), target)
  {
    hide Exists, RenameIn, MoveSidecar, QuarantineTarget;
  }

  lemma ConfigNotBelowData(dirs: StorageDirs, name: string, q: Path)
    requires Apart(dirs.dataDir, dirs.configDir) && AtOrUnder(dirs.configDir, q)
    ensures !AtOrUnder(dirs.dataDir + [name], q)
  {
    var dir := dirs.dataDir;
    assert dirs.configDir + q[|dirs.configDir|..] == q;
    ApartBelow(dirs.configDir, dir, q[|dirs.configDir|..]);
    if |dir| < |q| {
      assert q[..|dir| + 1][..|dir|] == q[..|dir|];
    }
  }

  lemma NoPhantomAtAll(w: World, d: Disk, dirs: StorageDirs, stamp: string, millis: nat)
    requires Steady(d, dirs) && HarmlessTargets(w, d, dirs)
    ensures ResetPhantom(w, d, dirs, stamp, millis) == 0
  {
    hide Steady, RemoveAll, SweepPhantom, TargetsIn, Settings, ConfigNames, QuarantineDatabase, PhantomOf, RemoveOne,
         LeadsOut;
    var cleared := RemoveAll(w, Sweep(d, [], 0), ClearTargets(dirs));
    var covers := Target(dirs.dataDir, COVERS_DIRNAME);
    var s := ClearedAndUncovered(w, d, dirs);
    var q := QuarantineDatabase(w, s.disk, dirs.dataDir, stamp, millis);
    var t := if q.Quarantined? then s.(disk := q.disk) else s;
    ClearTargetsAreOwn(dirs);
    ConfigTargetsHarmless(w, d, dirs, BROWSER_CACHE_DIRS);
    NoPhantomInSweep(w, Sweep(d, [], 0), dirs, ClearTargets(dirs));
    SweepFrame(w, Sweep(d, [], 0), dirs, ClearTargets(dirs), Place(covers));
    HarmlessIsNoPhantom(w, cleared.disk, dirs, covers);
    EntryIsUnder(dirs.configDir, dirs.configDir, "");
    ConfigOnlyShrinks(w, d, dirs, stamp, millis, dirs.configDir + [""]);
    forall name: string
      ensures Harmless(w, t.disk, Target(dirs.configDir, name))
    {
      EntryIsUnder(dirs.configDir, dirs.configDir, name);
      ConfigOnlyShrinks(w, d, dirs, stamp, millis, dirs.configDir + [name]);
      assert Harmless(w, d, Target(dirs.configDir, name));
    }
    var names := Settings(ConfigNames(w, t.disk, dirs.configDir));
    ConfigTargetsHarmless(w, t.disk, dirs, names);
    TargetsAreOwn(dirs, dirs.configDir, names);
    NoPhantomInSweep(w, t, dirs, TargetsIn(dirs.configDir, names));
  }

  lemma UnchangedMeans(d: Disk, e: Disk, q: Path)
    requires Unchanged(d, e, q)
    ensures q in d <==> q in e
  {
  }

  //// A reset nothing refuses leaves nothing below the config root, no marker and no covers.

  ghost predicate NeverBusy(w: World) {
    forall d: Disk, p: Path :: !w.busy(d, p)
  }

  /** Names below the given roots are names an operating system would list. */
  ghost predicate ProperNames(d: Disk, roots: set<Path>) {
    forall root, p :: root in roots && p in d && AtOrUnder(root, p) ==> IsPath(p)
  }

  lemma RemovableWhenPlain(w: World, d: Disk, t: Target)
    requires Tree(d) && ProperNames(d, {t.root}) && NeverBusy(w) && t.root != []
    requires Place(t) in d && !IsLinkAt(d, Place(t))
    ensures MayRemove(w, d, t)
  {
    hide RealPathOf, StartsBelow, Canonical, AtOrUnder, Under, ProperNames;
    ChildOf(t.root, t.name);
    ParentIsDir(d, Place(t));
    hide Tree, Parent, Last;
    RealHere(w, d, t.root);
    RealHere(w, d, Place(t));
    ProperPaths(d, t);
    StartsBelowIsUnder(t.root, Place(t));
  }

  lemma ProperPaths(d: Disk, t: Target)
    requires ProperNames(d, {t.root}) && t.root in d && Place(t) in d
    ensures IsPath(t.root) && IsPath(Place(t)) && Under(t.root, Place(t))
  {
    hide IsPath;
    assert AtOrUnder(t.root, t.root) && AtOrUnder(t.root, Place(t));
  }

  predicate Gone(d: Disk, p: Path) {
    AtOrBelow(d, p) == {}
  }

  lemma GoneMeans(d: Disk, p: Path, q: Path)
    requires Gone(d, p) && AtOrUnder(p, q)
    ensures q !in d
  {
    assert q in d ==> q in AtOrBelow(d, p);
  }

  /** What a sweep needs to remove its targets for certain. */
  ghost predicate Clear(d: Disk, dirs: StorageDirs, roots: set<Path>) {
    Tree(d) && ProperNames(d, roots) && Steady(d, dirs) && [] !in roots
  }

  lemma RemovalGone(w: World, s: Sweep, dirs: StorageDirs, roots: set<Path>, t: Target)
    requires Clear(s.disk, dirs, roots) && NeverBusy(w) && OwnTarget(dirs, t) && t.root in roots
    requires !IsLinkAt(s.disk, Place(t))
    ensures var e := RemoveOne(w, s, t).disk;
            Gone(e, Place(t)) && Clear(e, dirs, roots)
  {
    hide Tree, Canonical, MayRemove, NeverBusy, Apart, Place, AtOrUnder;
    var p := Place(t);
    RemovalFrame(w, s, dirs, t, []);
    RemovalIsRm(w, s.disk, t);
    RmKeepsTree(s.disk, p);
    if p in s.disk {
      RemovableWhenPlain(w, s.disk, t);
    } else {
      NothingThere(s.disk, p);
    }
  }

  predicate From(targets: seq<Target>, roots: set<Path>) {
    forall t :: t in targets ==> t.root in roots
  }

  lemma {:induction false} SweepGone(w: World, s: Sweep, dirs: StorageDirs, roots: set<Path>, targets: seq<Target>)
    requires Clear(s.disk, dirs, roots) && NeverBusy(w)
    requires OwnTargets(dirs, targets) && From(targets, roots) && NoneLinks(s.disk, targets)
    ensures var e := RemoveAll(w, s, targets).disk;
            Clear(e, dirs, roots) && forall t :: t in targets ==> Gone(e, Place(t))
    decreases |targets|
  {
    hide Tree, ProperNames, NeverBusy, Steady, RemoveOne, Gone, Place;
    if targets != [] {
      var next := RemoveOne(w, s, targets[0]);
      RemovalGone(w, s, dirs, roots, targets[0]);
      forall t | t in targets[1..]
        ensures !IsLinkAt(next.disk, Place(t))
      {
        RemovalFrame(w, s, dirs, targets[0], Place(t));
      }
      SweepGone(w, next, dirs, roots, targets[1..]);
      StaysGone(w, next, dirs, targets[1..], Place(targets[0]));
    }
  }

  lemma StaysGone(w: World, s: Sweep, dirs: StorageDirs, targets: seq<Target>, p: Path)
    requires Steady(s.disk, dirs) && OwnTargets(dirs, targets) && Gone(s.disk, p)
    ensures Gone(RemoveAll(w, s, targets).disk, p)
  {
    hide Steady, OwnTargets, RemoveAll;
    forall q | q in AtOrBelow(RemoveAll(w, s, targets).disk, p)
      ensures q in AtOrBelow(s.disk, p)
    {
      SweepFrame(w, s, dirs, targets, q);
    }
  }

  lemma {:induction false} TargetsInAre(root: Path, names: seq<string>, name: string)
    ensures From(TargetsIn(root, names), {root})
    ensures name in names <==> Target(root, name) in TargetsIn(root, names)
    decreases |names|
  {
    if names != [] {
      TargetsInAre(root, names[1..], name);
    }
  }

  lemma {:induction false} SettingsAre(names: seq<string>, name: string)
    ensures name in Settings(names) <==> name in names && name !in BROWSER_CACHE_DIRS
    decreases |names|
  {
    if names != [] {
      SettingsAre(names[1..], name);
    }
  }

  /** The caches, the marker and the covers are gone after the first part. */
  lemma ClearedIsGone(w: World, d: Disk, dirs: StorageDirs, name: string)
    requires Clear(d, dirs, {dirs.dataDir, dirs.configDir}) && NeverBusy(w) && PlainTargets(d, dirs)
    ensures var e := ClearedAndUncovered(w, d, dirs).disk;
            && Clear(e, dirs, {dirs.dataDir, dirs.configDir})
            && Gone(e, dirs.dataDir + [GPU_FALLBACK_MARKER]) && Gone(e, dirs.dataDir + [COVERS_DIRNAME])
            && (name in BROWSER_CACHE_DIRS ==> Gone(e, dirs.configDir + [name]))
  {
    hide Tree, ProperNames, NeverBusy, Steady, Gone, RemoveAll, TargetsIn, RemoveOne;
    var roots := {dirs.dataDir, dirs.configDir};
    var targets := ClearTargets(dirs);
    var marker, covers := Target(dirs.dataDir, GPU_FALLBACK_MARKER), Target(dirs.dataDir, COVERS_DIRNAME);
    ClearTargetsAreOwn(dirs);
    ConfigTargetsPlain(d, dirs, BROWSER_CACHE_DIRS);
    TargetsInAre(dirs.configDir, BROWSER_CACHE_DIRS, name);
    SweepGone(w, Sweep(d, [], 0), dirs, roots, targets);
    SweepFrame(w, Sweep(d, [], 0), dirs, targets, Place(covers));
    var cleared := RemoveAll(w, Sweep(d, [], 0), targets);
    var s := Sweep(cleared.disk, [], cleared.freed);
    RemovalGone(w, s, dirs, roots, covers);
    assert RemoveAll(w, s, [covers]) == RemoveOne(w, s, covers) by {
      OneTarget(w, s, covers);
    }
    assert marker in targets && Place(marker) == dirs.dataDir + [GPU_FALLBACK_MARKER];
    StaysGone(w, s, dirs, [covers], Place(marker));
    if name in BROWSER_CACHE_DIRS {
      assert Target(dirs.configDir, name) in targets;
      assert Place(Target(dirs.configDir, name)) == dirs.configDir + [name];
      StaysGone(w, s, dirs, [covers], dirs.configDir + [name]);
    }
  }

  lemma OneTarget(w: World, s: Sweep, t: Target)
    ensures RemoveAll(w, s, [t]) == RemoveOne(w, s, t)
  {
    hide RemoveOne;
    assert [t][1..] == [];
  }

  lemma QuarantineKeepsTree(w: World, d: Disk, dirs: StorageDirs, stamp: string, millis: nat)
    requires Tree(d) && Steady(d, dirs) && QuarantineDatabase(w, d, dirs.dataDir, stamp, millis).Quarantined?
    ensures Tree(QuarantineDatabase(w, d, dirs.dataDir, stamp, millis).disk)
  {
    hide Tree, Steady, QuarantineDatabase, MoveSidecar, RenameIn, Moved, Exists, QuarantineTarget, IsQuarantineName;
    var dir, db := dirs.dataDir, CATALOG_DB_FILENAME;
    var target := QuarantineTarget(w, d, dir, stamp, millis, 0);
    QuarantinedNow(w, d, dirs, stamp, millis);
    TargetIsQuarantineName(w, d, dir, stamp, millis, 0);
    DifferentNames(target);
    DatabaseMoves(w, d, dirs, stamp, millis, []);
    var moved := RenameIn(w, d, dir, db, target).value;
    DatabaseThere(w, d, dirs, target);
    MovedKeepsTree(d, dir, db, target);
    SidecarFrame(w, moved, dirs, target, "-wal", []);
    SidecarKeepsTree(w, moved, dirs, target, "-wal");
    SidecarKeepsTree(w, MoveSidecar(w, moved, dir, target, "-wal"), dirs, target, "-shm");
  }

  lemma DatabaseThere(w: World, d: Disk, dirs: StorageDirs, target: string)
    requires Steady(d, dirs) && RenameIn(w, d, dirs.dataDir, CATALOG_DB_FILENAME, target).Some?
    ensures dirs.dataDir + [CATALOG_DB_FILENAME] in d
  {
    hide Canonical, Moved;
    RenameInIs(w, d, dirs.dataDir, CATALOG_DB_FILENAME, target);
  }

  lemma SidecarKeepsTree(w: World, d: Disk, dirs: StorageDirs, target: string, suffix: string)
    requires Tree(d) && Steady(d, dirs) && CATALOG_DB_FILENAME + suffix != target + suffix
    ensures Tree(MoveSidecar(w, d, dirs.dataDir, target, suffix))
  {
    hide Tree, Canonical, Moved, Exists, RenameIn;
    RenameInIs(w, d, dirs.dataDir, CATALOG_DB_FILENAME + suffix, target + suffix);
    if dirs.dataDir + [CATALOG_DB_FILENAME + suffix] in d {
      MovedKeepsTree(d, dirs.dataDir, CATALOG_DB_FILENAME + suffix, target + suffix);
    }
  }

  /** An entry of the config root that survives the sweep of the settings is a cache directory. */
  lemma SettingsGone(w: World, s: Sweep, dirs: StorageDirs, q: Path)
    requires Lists(w) && Clear(s.disk, dirs, {dirs.configDir}) && NeverBusy(w)
    requires forall name: string :: !IsLinkAt(s.disk, dirs.configDir + [name])
    requires Under(dirs.configDir, q) && q in SweepSettings(w, s, dirs.configDir).disk
    ensures q in s.disk && q[|dirs.configDir|] in BROWSER_CACHE_DIRS
  {
    hide Tree, ProperNames, NeverBusy, Steady, RemoveAll, TargetsIn, Settings, Lists, Readdir;
    var config, name := dirs.configDir, q[|dirs.configDir|];
    var names := ConfigNames(w, s.disk, config);
    var targets := TargetsIn(config, Settings(names));
    SettingsFrame(w, s, dirs, q);
    NameIsListed(w, s.disk, config, q);
    SettingsAre(names, name);
    TargetsInAre(config, Settings(names), name);
    TargetsAreOwn(dirs, config, Settings(names));
    ConfigTargetsPlain(s.disk, dirs, Settings(names));
    SweepGone(w, s, dirs, {config}, targets);
    if name !in BROWSER_CACHE_DIRS {
      GoneMeans(SweepSettings(w, s, config).disk, Place(Target(config, name)), q);
    }
  }

  lemma NameIsListed(w: World, d: Disk, root: Path, q: Path)
    requires Lists(w) && Tree(d) && q in d && Under(root, q)
    ensures q[|root|] in ConfigNames(w, d, root)
    ensures AtOrUnder(root + [q[|root|]], q)
  {
    hide Lists, Tree, Readdir;
    DirsAbove(d, q, |root|);
    assert q[..|root| + 1] == root + [q[|root|]];
    if |q| > |root| + 1 {
      DirsAbove(d, q, |root| + 1);
    } else {
      assert q == root + [q[|root|]];
    }
    ListedIsEntry(w, d, root, q[|root|]);
  }

  /**
   With nothing refused and no link among the targets, a finished reset leaves
   the config root empty and removes the marker and the covers.
   */
  lemma ResetLeavesNothing(w: World, d: Disk, dirs: StorageDirs, stamp: string, millis: nat)
    requires Lists(w) && NeverBusy(w) && PlainTargets(d, dirs)
    requires Clear(d, dirs, {dirs.dataDir, dirs.configDir})
    ensures var r := ResetAppData(w, d, dirs, stamp, millis);
            r.Finished? ==>
              && Below(r.disk, dirs.configDir) == {}
              && Gone(r.disk, dirs.dataDir + [GPU_FALLBACK_MARKER]) && Gone(r.disk, dirs.dataDir + [COVERS_DIRNAME])
  {
    hide Lists, NeverBusy, Tree, ProperNames, Steady, PlainTargets, ClearedAndUncovered, QuarantineDatabase,
         SweepSettings, Under, Unchanged;
    var s := ClearedAndUncovered(w, d, dirs);
    var quarantine := QuarantineDatabase(w, s.disk, dirs.dataDir, stamp, millis);
    var t := if quarantine.Quarantined? then s.(disk := quarantine.disk) else s;
    var e := SweepSettings(w, t, dirs.configDir).disk;
    ClearedIsGone(w, d, dirs, "");
    StartOfSettings(w, d, dirs, stamp, millis);
    forall q | q in Below(e, dirs.configDir)
      ensures false
    {
      SettingsGone(w, t, dirs, q);
      CacheIsGone(w, d, dirs, stamp, millis, t.disk, q);
    }
    GoneStaysGone(w, s, dirs, stamp, millis, GPU_FALLBACK_MARKER);
    GoneStaysGone(w, s, dirs, stamp, millis, COVERS_DIRNAME);
  }

  /** Neither the quarantine nor the settings bring back the marker or the covers. */
  lemma GoneStaysGone(w: World, s: Sweep, dirs: StorageDirs, stamp: string, millis: nat, name: string)
    requires Steady(s.disk, dirs) && Gone(s.disk, dirs.dataDir + [name])
    requires name == GPU_FALLBACK_MARKER || name == COVERS_DIRNAME
    ensures var quarantine := QuarantineDatabase(w, s.disk, dirs.dataDir, stamp, millis);
            var t := if quarantine.Quarantined? then s.(disk := quarantine.disk) else s;
            Gone(SweepSettings(w, t, dirs.configDir).disk, dirs.dataDir + [name])
  {
    hide QuarantineDatabase, SweepSettings, Unchanged, Canonical, IsQuarantineName, AtOrUnder;
    var quarantine := QuarantineDatabase(w, s.disk, dirs.dataDir, stamp, millis);
    var t := if quarantine.Quarantined? then s.(disk := quarantine.disk) else s;
    var p := dirs.dataDir + [name];
    forall q | AtOrUnder(p, q)
      ensures q !in SweepSettings(w, t, dirs.configDir).disk
    {
      GoneMeans(s.disk, p, q);
      if quarantine.Quarantined? {
        QuarantineKeeps(w, s.disk, dirs, stamp, millis);
        NotAQuarantineName(quarantine.target, name);
        RestOf(p, q);
        DataEntryUntouched(dirs, name, q[|p|..]);
        QuarantineFrame(w, s.disk, dirs, stamp, millis, q);
        UnchangedMeans(s.disk, quarantine.disk, q);
      }
      SettingsFrame(w, t, dirs, q);
    }
  }

  lemma RestOf(p: Path, q: Path)
    requires AtOrUnder(p, q)
    ensures |p| <= |q| && p + q[|p|..] == q
  {
  }

  lemma NotAQuarantineName(target: string, name: string)
    requires IsQuarantineName(target) && (name == GPU_FALLBACK_MARKER || name == COVERS_DIRNAME)
    ensures name !in QuarantineNames(target)
  {
    assert target[..20] == CATALOG_DB_FILENAME + ".corrupt-";
    assert target[0] == 't' && CATALOG_DB_FILENAME[0] == 't' && name[0] != 't';
    assert forall x: string :: (target + x)[0] == 't';
  }

  lemma CacheIsGone(w: World, d: Disk, dirs: StorageDirs, stamp: string, millis: nat, e: Disk, q: Path)
    requires NeverBusy(w) && PlainTargets(d, dirs) && Clear(d, dirs, {dirs.dataDir, dirs.configDir})
    requires var s := ClearedAndUncovered(w, d, dirs);
             var quarantine := QuarantineDatabase(w, s.disk, dirs.dataDir, stamp, millis);
             e == if quarantine.Quarantined? then quarantine.disk else s.disk
    requires Under(dirs.configDir, q) && q[|dirs.configDir|] in BROWSER_CACHE_DIRS
    ensures q !in e
  {
    hide NeverBusy, Tree, ProperNames, Steady, PlainTargets, ClearedAndUncovered, QuarantineDatabase;
    var s := ClearedAndUncovered(w, d, dirs);
    var name := q[|dirs.configDir|];
    ClearedIsGone(w, d, dirs, name);
    assert q[..|dirs.configDir| + 1] == dirs.configDir + [name];
    GoneMeans(s.disk, dirs.configDir + [name], q);
    ConfigOnlyShrinks(w, d, dirs, stamp, millis, q);
  }

  /** What the sweep of the settings starts from still meets its needs. */
  lemma StartOfSettings(w: World, d: Disk, dirs: StorageDirs, stamp: string, millis: nat)
    requires Clear(d, dirs, {dirs.dataDir, dirs.configDir}) && NeverBusy(w) && PlainTargets(d, dirs)
    ensures var s := ClearedAndUncovered(w, d, dirs);
            var quarantine := QuarantineDatabase(w, s.disk, dirs.dataDir, stamp, millis);
            var e := if quarantine.Quarantined? then quarantine.disk else s.disk;
            && Clear(e, dirs, {dirs.configDir})
            && forall name: string :: !IsLinkAt(e, dirs.configDir + [name])
  {
    hide NeverBusy, Tree, Steady, ClearedAndUncovered, QuarantineDatabase, Unchanged, IsPath, AtOrUnder, Under;
    var s := ClearedAndUncovered(w, d, dirs);
    var quarantine := QuarantineDatabase(w, s.disk, dirs.dataDir, stamp, millis);
    var e := if quarantine.Quarantined? then quarantine.disk else s.disk;
    ClearedIsGone(w, d, dirs, "");
    if quarantine.Quarantined? {
      QuarantineFrame(w, s.disk, dirs, stamp, millis, []);
      QuarantineKeepsTree(w, s.disk, dirs, stamp, millis);
      forall q | q in e && AtOrUnder(dirs.configDir, q)
        ensures IsPath(q)
      {
        QuarantineConfig(w, s.disk, dirs, stamp, millis, q);
        UnchangedMeans(s.disk, e, q);
      }
    }
    forall name: string
      ensures !IsLinkAt(e, dirs.configDir + [name])
    {
      EntryIsUnder(dirs.configDir, dirs.configDir, name) by {
        assert AtOrUnder(dirs.configDir, dirs.configDir) by {
          SelfAtOrUnder(dirs.configDir);
        }
      }
      ConfigOnlyShrinks(w, d, dirs, stamp, millis, dirs.configDir + [name]);
      if quarantine.Quarantined? {
        UnchangedLink(s.disk, e, dirs.configDir + [name]);
      }
    }
  }

  lemma UnchangedLink(d: Disk, e: Disk, q: Path)
    requires Unchanged(d, e, q)
    ensures IsLinkAt(d, q) <==> IsLinkAt(e, q)
  {
  }

  lemma SelfAtOrUnder(p: Path)
    ensures AtOrUnder(p, p)
  {
  }
}
