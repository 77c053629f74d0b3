/**
 The paths a reset reports as removed: exactly the covers and the settings that
 were there before and are gone after, each once.
 */
module ResetRemoved {
  import opened Paths
  import opened Walk
  import opened Volume
  import opened VolumeLaws
  import opened Storage
  import opened Reset
  import opened ResetProofs
  import opened ResetSafety
  import opened ResetExact
  import opened CacheClear

  /** The entries a reset owns besides the caches: the covers, and whatever else is in the config root. */
  ghost predicate IsOwned(dirs: StorageDirs, p: Path) {
    p == dirs.dataDir + ["covers"] || exists name: string :: !IsCacheName(name) && p == dirs.configDir + [name]
  }

  predicate Went(d: Disk, e: Disk, p: Path) {
    p in d && p !in e
  }

  //// One removal, then a sweep of them.

  lemma RemovalReports(w: World, s: Sweep, dirs: StorageDirs, t: Target)
    requires Steady(s.disk, dirs) && OwnTarget(dirs, t)
    ensures var e := RemoveOne(w, s, t);
            e.removed == if Went(s.disk, e.disk, Place(t)) then s.removed + [Place(t)] else s.removed
  {
    hide Canonical, Apart, IsContained, DirectoryBytes;
    RemovalIsRm(w, s.disk, t);
    if MayRemove(w, s.disk, t) {
      ContainedIsThere(w, s.disk, t);
    }
  }

  lemma ContainedIsThere(w: World, d: Disk, t: Target)
    requires Canonical(d, t.root) && MayRemove(w, d, t)
    ensures Place(t) in d && Place(t) !in Rm(d, Place(t))
  {
    EntryResolves(w, d, t.root, t.name);
  }

  /** No target lies at or below another one. */
  predicate ApartPlaces(targets: seq<Target>) {
    forall i, j :: 0 <= i < |targets| && 0 <= j < |targets| && i != j ==>
      !AtOrUnder(Place(targets[i]), Place(targets[j]))
  }

  predicate IsPlace(targets: seq<Target>, p: Path) {
    exists t :: t in targets && Place(t) == p
  }

  /** A sweep reports each of its targets that went once, and nothing else. */
  lemma {:induction false} SweepReports(w: World, s: Sweep, dirs: StorageDirs, targets: seq<Target>, p: Path)
    requires Steady(s.disk, dirs) && OwnTargets(dirs, targets) && ApartPlaces(targets)
    ensures var e := RemoveAll(w, s, targets);
            multiset(e.removed)[p] ==
            multiset(s.removed)[p] + if IsPlace(targets, p) && Went(s.disk, e.disk, p) then 1 else 0
    decreases |targets|
  {
    hide Steady, RemoveOne, OwnTarget, Place, AtOrUnder;
    if targets != [] {
      var t, rest := targets[0], targets[1..];
      var next := RemoveOne(w, s, t);
      RemovalFrame(w, s, dirs, t, p);
      RemovalReports(w, s, dirs, t);
      SweepReports(w, next, dirs, rest, p);
      SweepFrame(w, next, dirs, rest, p);
      RestIsApart(targets, p);
    }
  }

  /** The first target is apart from the others. */
  lemma RestIsApart(targets: seq<Target>, p: Path)
    requires targets != [] && ApartPlaces(targets)
    ensures ApartPlaces(targets[1..])
    ensures IsPlace(targets, p) <==> p == Place(targets[0]) || IsPlace(targets[1..], p)
    ensures p == Place(targets[0]) ==> Misses(targets[1..], p) && !IsPlace(targets[1..], p)
    ensures IsPlace(targets[1..], p) ==> !AtOrUnder(Place(targets[0]), p)
  {
    hide AtOrUnder, Place;
    var rest := targets[1..];
    assert targets == [targets[0]] + rest;
    forall t | t in rest
      ensures !AtOrUnder(Place(t), Place(targets[0])) && !AtOrUnder(Place(targets[0]), Place(t))
    {
      var k :| 0 <= k < |rest| && rest[k] == t;
      assert targets[k + 1] == t;
    }
    forall t | t in rest
      ensures Place(t) != Place(targets[0])
    {
      Itself(Place(t));
    }
  }

  lemma Itself(p: Path)
    ensures AtOrUnder(p, p)
  {
  }

  lemma {:induction false} EntriesAreApart(root: Path, names: seq<string>)
    requires Distinct(names)
    ensures |TargetsIn(root, names)| == |names|
    ensures forall k :: 0 <= k < |names| ==> TargetsIn(root, names)[k] == Target(root, names[k])
    ensures ApartPlaces(TargetsIn(root, names))
    decreases |names|
  {
    hide AtOrUnder;
    if names != [] {
      EntriesAreApart(root, names[1..]);
    }
    forall i, j | 0 <= i < |names| && 0 <= j < |names| && i != j
      ensures !AtOrUnder(root + [names[i]], root + [names[j]])
    {
      SegmentAt(root, names[i], root + [names[j]]);
    }
  }

  lemma {:induction false} SettingsDistinct(names: seq<string>)
    requires Distinct(names)
    ensures Distinct(Settings(names))
    decreases |names|
  {
    if names != [] {
      SettingsDistinct(names[1..]);
      SettingsAre(names[1..], names[0]);
    }
  }

  //// The whole reset.

  lemma {:induction false} SweepKeepsTree(w: World, s: Sweep, dirs: StorageDirs, targets: seq<Target>)
    requires Tree(s.disk) && Steady(s.disk, dirs) && OwnTargets(dirs, targets)
    ensures Tree(RemoveAll(w, s, targets).disk)
    decreases |targets|
  {
    hide Tree, Steady, RemoveOne, OwnTarget;
    if targets != [] {
      RemovalKeepsTree(w, s, dirs, targets[0]);
      RemovalFrame(w, s, dirs, targets[0], []);
      SweepKeepsTree(w, RemoveOne(w, s, targets[0]), dirs, targets[1..]);
    }
  }

  lemma RemovalKeepsTree(w: World, s: Sweep, dirs: StorageDirs, t: Target)
    requires Tree(s.disk) && Steady(s.disk, dirs) && OwnTarget(dirs, t)
    ensures Tree(RemoveOne(w, s, t).disk)
  {
    hide Tree, Canonical, MayRemove, Apart;
    RemovalIsRm(w, s.disk, t);
    RmKeepsTree(s.disk, Place(t));
  }

  /** The disk the settings are swept on. */
  ghost function BeforeSettings(w: World, d: Disk, dirs: StorageDirs, stamp: string, millis: nat): Disk {
    var s := ClearedAndUncovered(w, d, dirs).disk;
    var q := QuarantineDatabase(w, s, dirs.dataDir, stamp, millis);
    if q.Quarantined? then q.disk else s
  }

  lemma BeforeSettingsIsTree(w: World, d: Disk, dirs: StorageDirs, stamp: string, millis: nat)
    requires Tree(d) && Steady(d, dirs)
    ensures var e := BeforeSettings(w, d, dirs, stamp, millis); Tree(e) && Steady(e, dirs)
  {
    hide Tree, Steady, RemoveAll, RemoveOne, TargetsIn, QuarantineDatabase;
    var covers := Target(dirs.dataDir, COVERS_DIRNAME);
    var cleared := RemoveAll(w, Sweep(d, [], 0), ClearTargets(dirs));
    var s := Sweep(cleared.disk, [], cleared.freed);
    ClearTargetsAreOwn(dirs);
    SweepKeepsTree(w, Sweep(d, [], 0), dirs, ClearTargets(dirs));
    SweepFrame(w, Sweep(d, [], 0), dirs, ClearTargets(dirs), []);
    RemovalKeepsTree(w, s, dirs, covers);
    RemovalFrame(w, s, dirs, covers, []);
    var e := ClearedAndUncovered(w, d, dirs).disk;
    if QuarantineDatabase(w, e, dirs.dataDir, stamp, millis).Quarantined? {
      QuarantineKeepsTree(w, e, dirs, stamp, millis);
      QuarantineFrame(w, e, dirs, stamp, millis, []);
    }
  }

  /** What the settings sweep reports. */
  lemma SettingsReport(w: World, s: Sweep, dirs: StorageDirs, p: Path)
    requires Lists(w) && Tree(s.disk) && Steady(s.disk, dirs)
    ensures var e := SweepSettings(w, s, dirs.configDir);
            multiset(e.removed)[p] == multiset(s.removed)[p] +
              if (exists name: string :: !IsCacheName(name) && p == dirs.configDir + [name]) && Went(s.disk, e.disk, p)
              then 1 else 0
  {
    hide Tree, Steady, RemoveAll, TargetsIn, Settings, ConfigNames, IsCacheName, Distinct;
    var root := dirs.configDir;
    var names := ConfigNames(w, s.disk, root);
    var targets := TargetsIn(root, Settings(names));
    NamesAreDistinct(w, s.disk, root);
    SettingsDistinct(names);
    EntriesAreApart(root, Settings(names));
    TargetsAreOwn(dirs, root, Settings(names));
    SweepReports(w, s, dirs, targets, p);
    if p in s.disk {
      PlaceIsEntry(w, s.disk, root, p);
    }
  }

  lemma NamesAreDistinct(w: World, d: Disk, root: Path)
    requires Lists(w)
    ensures Distinct(ConfigNames(w, d, root))
  {
    hide Names, RealPathOf;
  }

  /** An entry of the config root is a target exactly if it is no cache. */
  lemma PlaceIsEntry(w: World, d: Disk, root: Path, p: Path)
    requires Lists(w) && Tree(d) && p in d
    ensures IsPlace(TargetsIn(root, Settings(ConfigNames(w, d, root))), p) <==>
            exists name: string :: !IsCacheName(name) && p == root + [name]
  {
    hide Lists, Tree, TargetsIn, Settings, ConfigNames, IsCacheName;
    var names := Settings(ConfigNames(w, d, root));
    var targets := TargetsIn(root, names);
    if IsPlace(targets, p) {
      var t :| t in targets && Place(t) == p;
      NamesOfTargets(root, names, t);
      SettingsAre(ConfigNames(w, d, root), t.name);
      CacheNameIsListed(t.name);
    }
    if exists name: string :: !IsCacheName(name) && p == root + [name] {
      var name: string :| !IsCacheName(name) && p == root + [name];
      EntryIsUnder(root, root, name);
      NameIsListed(w, d, root, p);
      SettingsAre(ConfigNames(w, d, root), name);
      CacheNameIsListed(name);
      NamesOfTargets(root, names, Target(root, name));
      assert Place(Target(root, name)) == p;
    }
  }

  /** The covers are as they were until they are removed, and stay as that leaves them. */
  lemma CoversAround(w: World, d: Disk, dirs: StorageDirs, stamp: string, millis: nat)
    requires Steady(d, dirs)
    ensures var covers := dirs.dataDir + ["covers"];
            var t := ClearedAndUncovered(w, d, dirs).(disk := BeforeSettings(w, d, dirs, stamp, millis));
            && Unchanged(d, Cleared(w, d, dirs).disk, covers)
            && Unchanged(ClearedAndUncovered(w, d, dirs).disk, SweepSettings(w, t, dirs.configDir).disk, covers)
  {
    hide Canonical, Cleared, ClearedAndUncovered, QuarantineDatabase, SweepSettings, IsQuarantineName, AtOrUnder,
         Unchanged, Under;
    var covers := dirs.dataDir + ["covers"];
    CacheClearSpares(w, d, dirs, "covers");
    assert covers + [] == covers;
    SameAt(d, Cleared(w, d, dirs).disk, covers);
    ClearedFrame(w, d, dirs, covers);
    var s := ClearedAndUncovered(w, d, dirs);
    var q := QuarantineDatabase(w, s.disk, dirs.dataDir, stamp, millis);
    var t := s.(disk := BeforeSettings(w, d, dirs, stamp, millis));
    DataEntryUntouched(dirs, "covers", []);
    UnchangedRefl(s.disk, covers);
    if q.Quarantined? {
      QuarantineKeeps(w, s.disk, dirs, stamp, millis);
      NotAQuarantineName(q.target, COVERS_DIRNAME);
      forall n | n in QuarantineNames(q.target)
        ensures !AtOrUnder(dirs.dataDir + [n], covers)
      {
        SegmentAt(dirs.dataDir, n, covers);
      }
      QuarantineFrame(w, s.disk, dirs, stamp, millis, covers);
    }
    SettingsFrame(w, t, dirs, covers);
    UnchangedTrans(s.disk, t.disk, SweepSettings(w, t, dirs.configDir).disk, covers);
  }

  lemma SameAt(d: Disk, e: Disk, p: Path)
    requires SameTree(d, p, e, p)
    ensures Unchanged(d, e, p)
  {
    assert p + [] == p;
  }

  lemma UnchangedRefl(d: Disk, p: Path)
    ensures Unchanged(d, d, p)
  {
  }

  /** A setting is as it was until the settings are swept. */
  lemma SettingBefore(w: World, d: Disk, dirs: StorageDirs, stamp: string, millis: nat, name: string)
    requires Steady(d, dirs) && !IsCacheName(name)
    ensures Unchanged(d, BeforeSettings(w, d, dirs, stamp, millis), dirs.configDir + [name])
  {
    hide Canonical, RemoveAll, ClearTargets, RemoveOne, QuarantineDatabase, AtOrUnder, Unchanged, IsCacheName, Under,
         SameTree;
    var p := dirs.configDir + [name];
    var cleared := Cleared(w, d, dirs);
    var covers := Target(dirs.dataDir, COVERS_DIRNAME);
    CacheClearSpares(w, d, dirs, name);
    SameAt(d, cleared.disk, p);
    ClearTargetsAreOwn(dirs);
    SweepFrame(w, Sweep(d, [], 0), dirs, ClearTargets(dirs), p);
    BelowItself(dirs.configDir, [name]);
    ConfigNotBelowData(dirs, COVERS_DIRNAME, p);
    RemovalFrame(w, Sweep(cleared.disk, [], cleared.freed), dirs, covers, p);
    var s := ClearedAndUncovered(w, d, dirs).disk;
    UnchangedTrans(d, cleared.disk, s, p);
    if QuarantineDatabase(w, s, dirs.dataDir, stamp, millis).Quarantined? {
      QuarantineConfig(w, s, dirs, stamp, millis, p);
      UnchangedTrans(d, s, BeforeSettings(w, d, dirs, stamp, millis), p);
    }
  }

  /**
   The reported paths are exactly the owned entries that were there before the
   reset and are gone after it, each reported once. The caches and the marker
   are not among them.
   */
  lemma RemovedExactly(w: World, d: Disk, dirs: StorageDirs, stamp: string, millis: nat, p: Path)
    requires Lists(w) && Tree(d) && Steady(d, dirs)
    ensures var r := ResetAppData(w, d, dirs, stamp, millis);
            r.Finished? ==> multiset(r.removed)[p] == if IsOwned(dirs, p) && Went(d, r.disk, p) then 1 else 0
  {
    hide Lists, Tree, Canonical, RemoveAll, ClearTargets, RemoveOne, QuarantineDatabase, SweepSettings, IsCacheName,
         AtOrUnder, Under;
    var covers := Target(dirs.dataDir, COVERS_DIRNAME);
    var cleared := Cleared(w, d, dirs);
    var s := ClearedAndUncovered(w, d, dirs);
    var t := s.(disk := BeforeSettings(w, d, dirs, stamp, millis));
    ClearTargetsAreOwn(dirs);
    SweepFrame(w, Sweep(d, [], 0), dirs, ClearTargets(dirs), p);
    RemovalReports(w, Sweep(cleared.disk, [], cleared.freed), dirs, covers);
    BeforeSettingsIsTree(w, d, dirs, stamp, millis);
    SettingsReport(w, t, dirs, p);
    CoversAround(w, d, dirs, stamp, millis);
    if exists name: string :: !IsCacheName(name) && p == dirs.configDir + [name] {
      var name: string :| !IsCacheName(name) && p == dirs.configDir + [name];
      SettingBefore(w, d, dirs, stamp, millis, name);
      NoSettingIsCovers(dirs, name);
    }
  }

  lemma NoSettingIsCovers(dirs: StorageDirs, name: string)
    requires Apart(dirs.dataDir, dirs.configDir)
    ensures dirs.configDir + [name] != dirs.dataDir + [COVERS_DIRNAME]
  {
    BelowItself(dirs.configDir, [name]);
    ConfigNotBelowData(dirs, COVERS_DIRNAME, dirs.configDir + [name]);
  }
}
