/**
 Clearing the caches on its own: what it spares, what it leaves, and what it
 reports. The entries are named here once more, one by one.
 */
module CacheClear {
  import opened Paths
  import opened Volume
  import opened VolumeLaws
  import opened Storage
  import opened Reset
  import opened ResetProofs
  import opened ResetSafety
  import opened ResetExact

  /** The disk and the count after a cache clear; see Reset.Machine.ClearAppCache. */
  function Cleared(w: World, d: Disk, dirs: StorageDirs): Sweep {
    RemoveAll(w, Sweep(d, [], 0), ClearTargets(dirs))
  }

  /** The seven cache directories of Chromium. */
  predicate IsCacheName(name: string) {
    || name == "Cache" || name == "Code Cache" || name == "GPUCache" || name == "DawnGraphiteCache"
    || name == "DawnWebGPUCache" || name == "GrShaderCache" || name == "ShaderCache"
  }

  /** One of the eight entries that the app regenerates. */
  ghost predicate IsCache(dirs: StorageDirs, p: Path) {
    p == dirs.dataDir + ["gpu-fallback.json"] || exists name :: IsCacheName(name) && p == dirs.configDir + [name]
  }

  lemma CacheNameIsListed(name: string)
    ensures IsCacheName(name) <==> name in BROWSER_CACHE_DIRS
  {
    CacheNames();
    hide BROWSER_CACHE_DIRS;
  }

  lemma TargetIsCache(dirs: StorageDirs, t: Target)
    ensures t in ClearTargets(dirs) ==> IsCache(dirs, Place(t))
  {
    hide IsCacheName;
    NamesOfTargets(dirs.configDir, BROWSER_CACHE_DIRS, t);
    CacheNameIsListed(t.name);
  }

  lemma {:induction false} NamesOfTargets(root: Path, names: seq<string>, t: Target)
    ensures t in TargetsIn(root, names) <==> t.root == root && t.name in names
    decreases |names|
  {
    if names != [] {
      NamesOfTargets(root, names[1..], t);
      assert names == [names[0]] + names[1..];
    }
  }

  //// What it spares.

  /** Nothing changes but at and below those entries, whatever is refused and wherever links lead. */
  lemma CacheClearFrame(w: World, d: Disk, dirs: StorageDirs, q: Path)
    requires Steady(d, dirs) && forall p :: IsCache(dirs, p) ==> !AtOrUnder(p, q)
    ensures Unchanged(d, Cleared(w, d, dirs).disk, q)
  {
    hide Steady, RemoveAll, ClearTargets, OwnTargets, AtOrUnder, IsCache, Unchanged;
    ClearTargetsAreOwn(dirs);
    SweepFrame(w, Sweep(d, [], 0), dirs, ClearTargets(dirs), q);
    forall t | t in ClearTargets(dirs)
      ensures !AtOrUnder(Place(t), q)
    {
      TargetIsCache(dirs, t);
    }
  }

  /** The two roots' entries of any other name, the covers and the database among them, stay as they are. */
  lemma CacheClearSpares(w: World, d: Disk, dirs: StorageDirs, name: string)
    requires Steady(d, dirs)
    ensures var e := Cleared(w, d, dirs).disk;
            && (name != "gpu-fallback.json" ==> SameTree(d, dirs.dataDir + [name], e, dirs.dataDir + [name]))
            && (!IsCacheName(name) ==> SameTree(d, dirs.configDir + [name], e, dirs.configDir + [name]))
    ensures var e := Cleared(w, d, dirs).disk;
            forall kept | kept in {"covers", "tuxbooks.db", "tuxbooks.db-wal", "tuxbooks.db-shm"} ::
              SameTree(d, dirs.dataDir + [kept], e, dirs.dataDir + [kept])
  {
    hide Steady, Cleared, SameTree;
    if name != "gpu-fallback.json" {
      DataEntrySpared(w, d, dirs, name);
    }
    if !IsCacheName(name) {
      ConfigEntrySpared(w, d, dirs, name);
    }
    forall kept | kept in {"covers", "tuxbooks.db", "tuxbooks.db-wal", "tuxbooks.db-shm"}
      ensures SameTree(d, dirs.dataDir + [kept], Cleared(w, d, dirs).disk, dirs.dataDir + [kept])
    {
      assert kept[0] != "gpu-fallback.json"[0];
      DataEntrySpared(w, d, dirs, kept);
    }
  }

  lemma DataEntrySpared(w: World, d: Disk, dirs: StorageDirs, name: string)
    requires Steady(d, dirs) && name != "gpu-fallback.json"
    ensures SameTree(d, dirs.dataDir + [name], Cleared(w, d, dirs).disk, dirs.dataDir + [name])
  {
    hide Canonical, Cleared, IsCacheName;
    forall rel: Path
      ensures Unchanged(d, Cleared(w, d, dirs).disk, dirs.dataDir + [name] + rel)
    {
      var q := dirs.dataDir + [name] + rel;
      forall p | IsCache(dirs, p)
        ensures !AtOrUnder(p, q)
      {
        DataEntryIsNoCache(dirs, name, rel, p);
      }
      CacheClearFrame(w, d, dirs, q);
    }
  }

  lemma DataEntryIsNoCache(dirs: StorageDirs, name: string, rel: Path, p: Path)
    requires Apart(dirs.dataDir, dirs.configDir) && name != "gpu-fallback.json" && IsCache(dirs, p)
    ensures !AtOrUnder(p, dirs.dataDir + [name] + rel)
  {
    hide IsCacheName, AtOrUnder, Apart, Under;
    var q := dirs.dataDir + [name] + rel;
    if p == dirs.dataDir + ["gpu-fallback.json"] {
      SegmentAt(dirs.dataDir, "gpu-fallback.json", q);
      assert q[|dirs.dataDir|] == name;
    } else {
      var cache :| IsCacheName(cache) && p == dirs.configDir + [cache];
      DataEntryUntouched(dirs, name, rel);
      EntryNotAbove(dirs.configDir, cache, q);
    }
  }

  lemma ConfigEntrySpared(w: World, d: Disk, dirs: StorageDirs, name: string)
    requires Steady(d, dirs) && !IsCacheName(name)
    ensures SameTree(d, dirs.configDir + [name], Cleared(w, d, dirs).disk, dirs.configDir + [name])
  {
    hide Canonical, Cleared, IsCacheName;
    forall rel: Path
      ensures Unchanged(d, Cleared(w, d, dirs).disk, dirs.configDir + [name] + rel)
    {
      var q := dirs.configDir + [name] + rel;
      forall p | IsCache(dirs, p)
        ensures !AtOrUnder(p, q)
      {
        ConfigEntryIsNoCache(dirs, name, rel, p);
      }
      CacheClearFrame(w, d, dirs, q);
    }
  }

  lemma ConfigEntryIsNoCache(dirs: StorageDirs, name: string, rel: Path, p: Path)
    requires Apart(dirs.dataDir, dirs.configDir) && !IsCacheName(name) && IsCache(dirs, p)
    ensures !AtOrUnder(p, dirs.configDir + [name] + rel)
  {
    hide IsCacheName, AtOrUnder, Apart;
    var q := dirs.configDir + [name] + rel;
    if p == dirs.dataDir + ["gpu-fallback.json"] {
      assert AtOrUnder(dirs.configDir, q) by {
        BelowItself(dirs.configDir, [name] + rel);
        assert dirs.configDir + ([name] + rel) == q;
      }
      ConfigNotBelowData(dirs, "gpu-fallback.json", q);
    } else {
      var cache :| IsCacheName(cache) && p == dirs.configDir + [cache];
      SegmentAt(dirs.configDir, cache, q);
      assert q[|dirs.configDir|] == name;
    }
  }

  lemma BelowItself(p: Path, rel: Path)
    ensures AtOrUnder(p, p + rel)
  {
  }

  //// What it leaves.

  /** No link among the eight entries. */
  ghost predicate PlainCaches(d: Disk, dirs: StorageDirs) {
    forall p :: IsCache(dirs, p) ==> !IsLinkAt(d, p)
  }

  /** With nothing busy and no link among them, the eight entries are gone. */
  lemma CacheClearLeavesNothing(w: World, d: Disk, dirs: StorageDirs, p: Path)
    requires Clear(d, dirs, {dirs.dataDir, dirs.configDir}) && NeverBusy(w) && PlainCaches(d, dirs)
    requires IsCache(dirs, p)
    ensures Gone(Cleared(w, d, dirs).disk, p)
  {
    hide Tree, ProperNames, NeverBusy, Steady, Gone, RemoveAll, TargetsIn, IsCacheName;
    var targets, roots := ClearTargets(dirs), {dirs.dataDir, dirs.configDir};
    ClearTargetsAreOwn(dirs);
    forall t | t in targets
      ensures t.root in roots && !IsLinkAt(d, Place(t))
    {
      TargetIsCache(dirs, t);
      NamesOfTargets(dirs.configDir, BROWSER_CACHE_DIRS, t);
    }
    SweepGone(w, Sweep(d, [], 0), dirs, roots, targets);
    var t := CacheIsTarget(dirs, p);
  }

  lemma CacheIsTarget(dirs: StorageDirs, p: Path) returns (t: Target)
    requires IsCache(dirs, p)
    ensures t in ClearTargets(dirs) && Place(t) == p
  {
    hide IsCacheName, TargetsIn;
    if p == dirs.dataDir + ["gpu-fallback.json"] {
      t := Target(dirs.dataDir, GPU_FALLBACK_MARKER);
    } else {
      var name :| IsCacheName(name) && p == dirs.configDir + [name];
      t := Target(dirs.configDir, name);
      CacheNameIsListed(name);
      NamesOfTargets(dirs.configDir, BROWSER_CACHE_DIRS, t);
    }
  }

  //// What it reports.

  /** No cache is a link that on any disk leads below its root. */
  ghost predicate HarmlessCaches(w: World, d: Disk, dirs: StorageDirs) {
    forall t: Target :: IsCache(dirs, Place(t)) && OwnTarget(dirs, t) ==> Harmless(w, d, t)
  }

  /** Then the freed bytes it returns are exactly what the two roots lose. */
  lemma CacheClearReportIsExact(w: World, d: Disk, dirs: StorageDirs)
    requires Lists(w) && Sound(d, dirs) && HarmlessCaches(w, d, dirs)
    ensures var s := Cleared(w, d, dirs);
            Total(d, dirs) == Total(s.disk, dirs) + s.freed
  {
    hide Lists, Tree, WithinCap, Canonical, Apart, Total, RemoveAll, SweepPhantom, ClearTargets, Harmless, IsCache,
         OwnTarget, Place;
    var targets := ClearTargets(dirs);
    ClearTargetsAreOwn(dirs);
    forall t | t in targets
      ensures Harmless(w, d, t)
    {
      TargetIsCache(dirs, t);
    }
    SweepLedger(w, Sweep(d, [], 0), dirs, targets);
    NoPhantomInSweep(w, Sweep(d, [], 0), dirs, targets);
  }
}
