/**
 Small disks on which the storage report and the reset are off: a linked cache
 directory, a linked cover directory, a linked cache inside the root, and a
 file that already has the quarantined log's name. Each meets every hypothesis
 of the theorem it stands beside.
 */
module StorageCases {
  import opened Text
  import opened Paths
  import opened Sums
  import opened Walk
  import opened Volume
  import opened VolumeLaws
  import opened Storage
  import opened Reset
  import opened ResetProofs
  import opened ResetSafety
  import opened ResetExact
  import opened ResetReport

  //// A world that lists names in some order and refuses nothing.

  ghost function SomeOrder(names: set<string>): seq<string> {
    if names == {} then []
    else
      var name :| name in names;
      [name] + SomeOrder(names - {name})
  }

  lemma {:induction false} SomeOrderLists(names: set<string>)
    ensures Distinct(SomeOrder(names)) && forall n :: n in SomeOrder(names) <==> n in names
    decreases |names|
  {
    if names != {} {
      var name :| name in names && SomeOrder(names) == [name] + SomeOrder(names - {name});
      SomeOrderLists(names - {name});
    }
  }

  /** Every link in `from` leads to `to`. */
  ghost function Willing(from: set<Path>, to: Path): World {
    World(SomeOrder, (d: Disk, p: Path) => if p in from then Some(to) else None,
          (d: Disk, p: Path) => false, (d: Disk, p: Path, q: Path) => false)
  }

  lemma WillingLists(from: set<Path>, to: Path)
    ensures Lists(Willing(from, to)) && NeverLocked(Willing(from, to))
  {
    forall names
      ensures Distinct(SomeOrder(names)) && forall n :: n in SomeOrder(names) <==> n in names
    {
      SomeOrderLists(names);
    }
  }

  lemma OnlyName(name: string)
    ensures SomeOrder({name}) == [name]
  {
    var n :| n in {name} && SomeOrder({name}) == [n] + SomeOrder({name} - {n});
    assert {name} - {n} == {};
  }

  //// Sizes of small disks.

  lemma SmallIsWithinCap(d: Disk, p: Path)
    requires |d.Keys| <= MAX_WALK_ENTRIES
    ensures WithinCap(d, p)
  {
    assert Below(d, p) <= d.Keys;
    SubsetSize(Below(d, p), d.Keys);
  }

  lemma {:induction false} SumOfNothing(f: Path -> nat, s: set<Path>)
    requires forall p :: p in s ==> f(p) == 0
    ensures Sum(f, s) == 0
    decreases |s|
  {
    if s != {} {
      var p :| p in s;
      SumTake(f, s, p);
      SumOfNothing(f, s - {p});
    }
  }

  lemma NoBytes(d: Disk, p: Path)
    requires forall q :: q in d && AtOrUnder(p, q) ==> SizeAt(d, q) == 0
    ensures Bytes(d, p) == 0
  {
    SumOfNothing(Size(d), AtOrBelow(d, p));
  }

  /** The walk of a directory, or of a link to one, that holds a single file. */
  lemma WalkOfOneFile(fs: FileSystem, p: Path, name: string, size: nat)
    requires fs.readdir(p) == Some([name]) && fs.lstat(p + [name]) == Some(IsFile(size))
    ensures DirectoryBytes(fs, p) == size
  {
    var s := Progress([], 0, 0, false);
    var t := Progress([], 1, size, false);
    assert [p][..0] == [] && [p][0] == p;
    assert VisitNames(fs, p, [name], 0, s) == VisitNames(fs, p, [name], 1, VisitOne(fs, p + [name], s)) == t;
    assert WalkStack(fs, Progress([p], 0, 0, false)) == WalkStack(fs, t);
  }

  /** A link to a directory that holds the single file "f" of one byte. */
  lemma LinkToOneFile(w: World, d: Disk, link: Path, dir: Path)
    requires IsLinkAt(d, link) && w.follow(d, link) == Some(dir) && w.order({"f"}) == ["f"]
    requires dir in d && d[dir] == Dir && dir + ["f"] in d && d[dir + ["f"]] == File("x")
    requires forall q :: q in d && q != [] && Parent(q) == dir ==> q == dir + ["f"]
    ensures DirectoryBytes(View(w, d), link) == 1
  {
    assert link[..|link|] == link && ThroughLink(d, link);
    assert RealPathOf(w, d, link) == Some(dir);
    ChildOf(dir, "f");
    ChildOf(link, "f");
    assert Names(d, dir) == {"f"} by {
      assert "f" in Names(d, dir);
    }
    WalkOfOneFile(View(w, d), link, "f", 1);
  }

  const DIRS: StorageDirs := StorageDirs(["d"], ["c"])

  //// A linked cache directory and a linked cover directory.

  const CACHE: Path := ["c", "Cache"]
  const COVERS: Path := ["d", "covers"]

  /** Both link to a directory outside the roots, with one byte in it. */
  const LINKED: Disk :=
    map[[] := Dir, ["c"] := Dir, CACHE := Link, ["d"] := Dir, COVERS := Link, ["b"] := Dir, ["b", "f"] := File("x")]

  lemma Segments()
    ensures Parent(["c"]) == [] && Parent(["d"]) == [] && Parent(["b"]) == []
    ensures Parent(CACHE) == ["c"] && Parent(COVERS) == ["d"] && Parent(["b", "f"]) == ["b"]
    ensures ["c"][..0] == [] && ["c"][..1] == ["c"] && ["d"][..0] == [] && ["d"][..1] == ["d"]
  {
  }

  lemma RootsApart()
    ensures Apart(["d"], ["c"])
  {
    assert ["c"][..1][0] != ["d"][0];
  }

  lemma LinkedIsTree()
    ensures Tree(LINKED)
  {
    Segments();
    forall p | p in LINKED
      ensures InDir(LINKED, p)
    {
    }
    TreeFrom(LINKED);
  }

  lemma LinkedIsSound()
    ensures Sound(LINKED, DIRS)
  {
    hide Tree, WithinCap;
    Segments();
    RootsApart();
    LinkedIsTree();
    assert LINKED.Keys == {[], ["c"], CACHE, ["d"], COVERS, ["b"], ["b", "f"]};
    forall root: Path, name: string | root in {["c"], ["d"]}
      ensures WithinCap(LINKED, root + [name])
    {
      SmallIsWithinCap(LINKED, root + [name]);
    }
  }

  /**
   The linked cache directory adds a byte that the walk of the root does not
   see: the entries exceed the root, and the clamp at zero bites.
   */
  lemma LinkedCacheExceedsRoot()
    ensures var w := Willing({CACHE, COVERS}, ["b"]);
            var r := BuildStorageReport(View(w, LINKED), DIRS);
            && Lists(w) && Sound(LINKED, DIRS) && WithinCap(LINKED, DIRS.configDir)
            && NamedPhantom(w, LINKED, DIRS.configDir, BROWSER_CACHE_DIRS) >
               OtherBytes(LINKED, DIRS.configDir, BROWSER_CACHE_DIRS)
            && r.configRoot == 0 && r.settings == 0 && r.browserCaches > r.configRoot
  {
    hide DirectoryBytes, Bytes, OtherBytes, Sum, Canonical, Tree, Lists, LINKED, WithinCap;
    var w, config := Willing({CACHE, COVERS}, ["b"]), DIRS.configDir;
    LinkedFacts(w, CACHE);
    SmallIsWithinCap(LINKED, config);
    RootsAreEmpty();
    ConfigEntriesAddUp(w, LINKED, DIRS);
    CacheNamesDistinct();
    SplitByNames(LINKED, config, BROWSER_CACHE_DIRS);
    FirstPhantom(w, LINKED, config);
    assert config + ["Cache"] == CACHE;
  }

  lemma RootsAreEmpty()
    ensures Bytes(LINKED, DIRS.configDir) == 0 && Bytes(LINKED, DIRS.dataDir) == 0
  {
    hide Bytes;
    assert ["b", "f"][..1][0] == "b";
    NoBytes(LINKED, DIRS.configDir);
    NoBytes(LINKED, DIRS.dataDir);
  }

  lemma FirstPhantom(w: World, d: Disk, root: Path)
    ensures NamedPhantom(w, d, root, BROWSER_CACHE_DIRS) >= Phantom(w, d, root + ["Cache"])
  {
    hide Phantom;
  }

  lemma LinkedNodes(link: Path)
    requires link in {CACHE, COVERS}
    ensures IsLinkAt(LINKED, link) && ["b"] in LINKED && LINKED[["b"]] == Dir
    ensures ["b"] + ["f"] in LINKED && LINKED[["b"] + ["f"]] == File("x")
    ensures forall q :: q in LINKED && q != [] && Parent(q) == ["b"] ==> q == ["b"] + ["f"]
    ensures |LINKED.Keys| <= MAX_WALK_ENTRIES
  {
    Segments();
    assert LINKED.Keys == {[], ["c"], CACHE, ["d"], COVERS, ["b"], ["b", "f"]};
    assert ["b"] + ["f"] == ["b", "f"];
  }

  lemma LinkedFacts(w: World, link: Path)
    requires w == Willing({CACHE, COVERS}, ["b"]) && link in {CACHE, COVERS}
    ensures Lists(w) && Sound(LINKED, DIRS) && |LINKED.Keys| <= MAX_WALK_ENTRIES
    ensures Phantom(w, LINKED, link) == DirectoryBytes(View(w, LINKED), link) == 1
  {
    hide DirectoryBytes, Sound, Lists, LINKED, SomeOrder;
    WillingLists({CACHE, COVERS}, ["b"]);
    LinkedIsSound();
    OnlyName("f");
    LinkedNodes(link);
    LinkToOneFile(w, LINKED, link, ["b"]);
  }

  /** The linked cover directory makes the data entries exceed their root. */
  lemma LinkedCoversExceedRoot()
    ensures var w := Willing({CACHE, COVERS}, ["b"]);
            var r := BuildStorageReport(View(w, LINKED), DIRS);
            && Lists(w) && Sound(LINKED, DIRS) && WithinCap(LINKED, DIRS.dataDir)
            && r.dataRoot == 0 && r.catalog + r.covers + r.gpuMarker > r.dataRoot
  {
    hide DirectoryBytes, Bytes, UnlistedBytes, Canonical, Tree, Lists, CatalogBytes, FileBytes, BrowserCacheBytes;
    hide LINKED, WithinCap;
    var w, data := Willing({CACHE, COVERS}, ["b"]), DIRS.dataDir;
    LinkedFacts(w, COVERS);
    LinkedNodes(COVERS);
    SmallIsWithinCap(LINKED, data);
    RootsAreEmpty();
    assert data + [COVERS_DIRNAME] == COVERS;
    DataEntriesFit(w, LINKED, DIRS);
  }

  //// A log whose new name is taken.

  const STAMP: string := "S"
  const TARGET: string := CATALOG_DB_FILENAME + ".corrupt-" + STAMP

  /** The database and its log, and a file of one byte where the log will go. */
  const TAKEN: Disk :=
    map[[] := Dir, ["c"] := Dir, ["d"] := Dir, ["d", CATALOG_DB_FILENAME] := File(""),
        ["d", CATALOG_DB_FILENAME + "-wal"] := File(""), ["d", TARGET + "-wal"] := File("x")]

  lemma TakenKeys()
    ensures TAKEN.Keys == {[], ["c"], ["d"], ["d", CATALOG_DB_FILENAME], ["d", CATALOG_DB_FILENAME + "-wal"],
                           ["d", TARGET + "-wal"]}
    ensures |CATALOG_DB_FILENAME| == 11 && |TARGET| == 21
  {
  }

  lemma TakenNodes()
    ensures forall p :: p in TAKEN ==> !TAKEN[p].Link?
    ensures ["d", CATALOG_DB_FILENAME] in TAKEN && TAKEN[["d", CATALOG_DB_FILENAME]].File?
    ensures ["d", CATALOG_DB_FILENAME + "-wal"] in TAKEN && TAKEN[["d", CATALOG_DB_FILENAME + "-wal"]].File?
    ensures ["d", TARGET + "-wal"] in TAKEN && TAKEN[["d", TARGET + "-wal"]] == File("x")
    ensures ["d", TARGET] !in TAKEN
  {
    TakenKeys();
    assert ["d", TARGET][1] != ["d", CATALOG_DB_FILENAME][1];
    assert |(CATALOG_DB_FILENAME + "-wal")| == 15 && |TARGET + "-wal"| == 25;
    assert ["d", CATALOG_DB_FILENAME + "-wal"][1] != ["d", TARGET + "-wal"][1];
    assert ["d", CATALOG_DB_FILENAME][1] != ["d", TARGET + "-wal"][1];
  }

  lemma TakenIsSound()
    ensures Sound(TAKEN, DIRS) && |TAKEN.Keys| <= MAX_WALK_ENTRIES
  {
    Segments();
    RootsApart();
    TakenKeys();
    forall name: string
      ensures Parent(["d", name]) == ["d"]
    {
      ChildOf(["d"], name);
      assert ["d"] + [name] == ["d", name];
    }
    forall p | p in TAKEN
      ensures InDir(TAKEN, p)
    {
    }
    TreeFrom(TAKEN);
    forall root: Path, name: string | root in {["c"], ["d"]}
      ensures WithinCap(TAKEN, root + [name])
    {
      SmallIsWithinCap(TAKEN, root + [name]);
    }
    NoLinksNoneThrough(TAKEN, ["c"]);
    NoLinksNoneThrough(TAKEN, ["d"]);
  }

  lemma NoLinksNoneThrough(d: Disk, p: Path)
    requires forall q :: q in d ==> !d[q].Link?
    ensures Canonical(d, p)
  {
  }

  lemma TargetIsFirst()
    ensures TARGET == Candidate(STAMP, 0)
  {
  }

  lemma TakenNames(w: World)
    requires w == Willing({}, [])
    ensures PlainTargets(TAKEN, DIRS) && PlainNames(TAKEN, DIRS.dataDir)
    ensures InitialTarget(w, TAKEN, DIRS.dataDir, STAMP, 0) == TARGET
    ensures Follows(TAKEN, DIRS.dataDir, TARGET, "") && Follows(TAKEN, DIRS.dataDir, TARGET, "-wal")
  {
    hide TAKEN, TARGET, CATALOG_DB_FILENAME, RealPathOf;
    var dir := DIRS.dataDir;
    TakenNodes();
    TakenIsSound();
    forall name: string
      ensures dir + [name] == ["d", name]
    {
    }
    TargetIsFirst();
    assert TARGET + "" == TARGET && CATALOG_DB_FILENAME + "" == CATALOG_DB_FILENAME;
    PlainExists(w, TAKEN, dir, TARGET);
    NothingBelow(TAKEN, dir + [TARGET + "-wal"]);
  }

  /**
   The target itself is free, every hypothesis is met, and the reset finishes;
   but the log replaces the byte at its new name, which the report misses.
   */
  lemma TakenLogNameIsMissed()
    ensures var w := Willing({}, []);
            var r := ResetAppData(w, TAKEN, DIRS, STAMP, 0);
            && Lists(w) && NeverLocked(w) && Sound(TAKEN, DIRS) && PlainTargets(TAKEN, DIRS)
            && InitialTarget(w, TAKEN, DIRS.dataDir, STAMP, 0) == TARGET && DIRS.dataDir + [TARGET] !in TAKEN
            && r.Finished? && r.freed < Total(TAKEN, DIRS) - Total(r.disk, DIRS)
  {
    hide TAKEN, TARGET, CATALOG_DB_FILENAME, Sound, Lists, PlainTargets, PlainNames, ResetAppData, Follows, Total,
         InitialTarget, Bytes, ResetClobbered, Willing;
    var w, dir := Willing({}, []), DIRS.dataDir;
    WillingLists({}, []);
    TakenIsSound();
    TakenNodes();
    TakenNames(w);
    assert dir + [CATALOG_DB_FILENAME] == ["d", CATALOG_DB_FILENAME];
    assert dir + [TARGET] == ["d", TARGET] && dir + [TARGET + "-wal"] == ["d", TARGET + "-wal"];
    OwnBytes(TAKEN, dir + [TARGET + "-wal"]);
    assert InTheWay(TAKEN, dir, TARGET, "-wal") >= 1;
    PlainIsHarmless(w, TAKEN, DIRS);
    ReportIsDropExactlyWhen(w, TAKEN, DIRS, STAMP, 0);
    ReportIsDropUnlessReplaced(w, TAKEN, DIRS, STAMP, 0);
  }

  //// A cache that is a link into its own root.

  /** "Cache" leads to "b" beside it, which holds one byte. */
  const INWARD: Disk :=
    map[[] := Dir, ["c"] := Dir, CACHE := Link, ["c", "b"] := Dir, ["c", "b", "f"] := File("x"), ["d"] := Dir]

  lemma InwardIsSound()
    ensures Sound(INWARD, DIRS) && |INWARD.Keys| <= MAX_WALK_ENTRIES
    ensures forall p :: p in INWARD ==> IsPath(p)
  {
    Segments();
    RootsApart();
    assert Parent(["c", "b"]) == ["c"] && Parent(["c", "b", "f"]) == ["c", "b"];
    forall p | p in INWARD
      ensures InDir(INWARD, p) && IsPath(p)
    {
    }
    TreeFrom(INWARD);
    assert INWARD.Keys == {[], ["c"], CACHE, ["c", "b"], ["c", "b", "f"], ["d"]};
    forall root: Path, name: string | root in {["c"], ["d"]}
      ensures WithinCap(INWARD, root + [name])
    {
      SmallIsWithinCap(INWARD, root + [name]);
    }
  }

  lemma InwardNodes()
    ensures IsLinkAt(INWARD, CACHE) && ["c"] in INWARD && ["c"] + ["Cache"] == CACHE
    ensures ["c", "b"] in INWARD && INWARD[["c", "b"]] == Dir && Under(["c"], ["c", "b"])
    ensures ["c", "b"] + ["f"] in INWARD && INWARD[["c", "b"] + ["f"]] == File("x")
    ensures forall q :: q in INWARD && q != [] && Parent(q) == ["c", "b"] ==> q == ["c", "b"] + ["f"]
    ensures ["d"] + [CATALOG_DB_FILENAME] !in INWARD
  {
    Segments();
    assert ["c", "b"] + ["f"] == ["c", "b", "f"];
    assert Parent(["c", "b"]) == ["c"] && ["c", "b"][..1] == ["c"];
    assert (["d"] + [CATALOG_DB_FILENAME])[0] == "d" && ["c", "b"][0] == "c" && CACHE[0] == "c";
  }

  /** The link's removal frees nothing, but the walk behind it counted a byte that is removed, and counted, later. */
  lemma InwardLinkIsCountedTwice()
    ensures var w := Willing({CACHE}, ["c", "b"]);
            var r := ResetAppData(w, INWARD, DIRS, STAMP, 0);
            && Lists(w) && NeverLocked(w) && Sound(INWARD, DIRS)
            && r.Finished? && r.freed > Total(INWARD, DIRS) - Total(r.disk, DIRS)
  {
    hide INWARD, Sound, Lists, Total, ResetPhantom, ResetClobbered, ClearedAndUncovered, SweepSettings, Unchanged,
         CATALOG_DB_FILENAME, RealPathOf, SomeOrder;
    var w := Willing({CACHE}, ["c", "b"]);
    WillingLists({CACHE}, ["c", "b"]);
    InwardIsSound();
    InwardNodes();
    var s := ClearedAndUncovered(w, INWARD, DIRS).disk;
    var database := DIRS.dataDir + [CATALOG_DB_FILENAME];
    InwardIsSteady();
    ClearedFrame(w, INWARD, DIRS, database);
    PlainExists(w, s, DIRS.dataDir, CATALOG_DB_FILENAME);
    ResetConserves(w, INWARD, DIRS, STAMP, 0);
    ClobberedIsInitial(w, INWARD, DIRS, STAMP, 0);
    InwardPhantom(w);
  }

  lemma InwardIsSteady()
    ensures Steady(INWARD, DIRS)
  {
    InwardIsSound();
    hide INWARD;
  }

  lemma InwardPhantom(w: World)
    requires w == Willing({CACHE}, ["c", "b"])
    ensures ResetPhantom(w, INWARD, DIRS, STAMP, 0) >= 1
  {
    hide INWARD, SweepPhantom, MayRemove, DirectoryBytes, Sound, RemoveAll, ClearedAndUncovered, QuarantineDatabase,
         PhantomOf, TargetsIn, Settings, ConfigNames, SomeOrder;
    InwardIsSound();
    InwardNodes();
    OnlyName("f");
    LinkToOneFile(w, INWARD, CACHE, ["c", "b"]);
    InwardMayRemove(w);
    FirstOfSweep(w, INWARD);
  }

  lemma InwardMayRemove(w: World)
    requires w == Willing({CACHE}, ["c", "b"])
    ensures MayRemove(w, INWARD, Target(["c"], "Cache"))
  {
    hide INWARD, MayRemove, SomeOrder;
    InwardIsSound();
    InwardNodes();
    assert IsPath(["c", "b"]) by {
      assert ["c", "b"] in INWARD;
    }
    LinkedTargetStaysInside(w, INWARD, Target(["c"], "Cache"));
  }

  lemma FirstOfSweep(w: World, d: Disk)
    requires MayRemove(w, d, Target(["c"], "Cache"))
    ensures SweepPhantom(w, Sweep(d, [], 0), ClearTargets(DIRS)) >= Phantom(w, d, ["c"] + ["Cache"])
  {
    hide MayRemove, Phantom, RemoveOne;
    assert ClearTargets(DIRS)[0] == Target(["c"], "Cache");
  }
}
