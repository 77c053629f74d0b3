/**
 The storage report: the two app-owned roots sized by bounded walks, and the
 entries they are broken into.
 */
module Storage {
  import opened Paths
  import opened Sums
  import opened Walk
  import opened Volume

  const CATALOG_DB_FILENAME: string := "tuxbooks.db"
  const COVERS_DIRNAME: string := "covers"
  const GPU_FALLBACK_MARKER: string := "gpu-fallback.json"
  const BROWSER_CACHE_DIRS: seq<string> :=
    ["Cache", "Code Cache", "GPUCache", "DawnGraphiteCache", "DawnWebGPUCache", "GrShaderCache", "ShaderCache"]

  datatype StorageDirs = StorageDirs(dataDir: Path, configDir: Path)

  datatype Report = Report(dataRoot: nat, catalog: nat, covers: nat, gpuMarker: nat,
                           configRoot: nat, browserCaches: nat, settings: nat,
                           appDataBytes: nat, cacheBytes: nat)

  function CatalogBytes(fs: FileSystem, dataDir: Path): nat {
    FileBytes(fs, dataDir + [CATALOG_DB_FILENAME])
    + FileBytes(fs, dataDir + [CATALOG_DB_FILENAME + "-wal"])
    + FileBytes(fs, dataDir + [CATALOG_DB_FILENAME + "-shm"])
  }

  /** The left-to-right reduction over a list of directory names. */
  function WalkNames(fs: FileSystem, root: Path, names: seq<string>, total: nat): nat {
    if names == [] then total else WalkNames(fs, root, names[1..], total + DirectoryBytes(fs, root + [names[0]]))
  }

  function BrowserCacheBytes(fs: FileSystem, configDir: Path): nat {
    WalkNames(fs, configDir, BROWSER_CACHE_DIRS, 0)
  }

  function BuildStorageReport(fs: FileSystem, dirs: StorageDirs): Report {
    var dataRoot := DirectoryBytes(fs, dirs.dataDir);
    var configRoot := DirectoryBytes(fs, dirs.configDir);
    var caches := BrowserCacheBytes(fs, dirs.configDir);
    var marker := FileBytes(fs, dirs.dataDir + [GPU_FALLBACK_MARKER]);
    Report(dataRoot,
           CatalogBytes(fs, dirs.dataDir),
           DirectoryBytes(fs, dirs.dataDir + [COVERS_DIRNAME]),
           marker,
           configRoot,
           caches,
           if configRoot >= caches then configRoot - caches else 0,
           dataRoot + configRoot,
           caches + marker)
  }

  //// A root split into some of its entries and the rest.

  ghost function NamedBytes(d: Disk, root: Path, names: seq<string>): nat {
    if names == [] then 0 else Bytes(d, root + [names[0]]) + NamedBytes(d, root, names[1..])
  }

  ghost function NamedPhantom(w: World, d: Disk, root: Path, names: seq<string>): nat {
    if names == [] then 0 else Phantom(w, d, root + [names[0]]) + NamedPhantom(w, d, root, names[1..])
  }

  /** Everything at and below root but not at or below one of the named entries. */
  ghost function Others(d: Disk, root: Path, names: seq<string>): set<Path> {
    set q | q in AtOrBelow(d, root) && forall n :: n in names ==> !AtOrUnder(root + [n], q)
  }

  ghost function OtherBytes(d: Disk, root: Path, names: seq<string>): nat {
    Sum(Size(d), Others(d, root, names))
  }

  lemma SiblingsApart(root: Path, a: string, b: string, q: Path)
    requires a != b
    ensures !(AtOrUnder(root + [a], q) && AtOrUnder(root + [b], q))
  {
    SegmentAt(root, a, q);
    SegmentAt(root, b, q);
  }

  lemma SegmentAt(root: Path, name: string, q: Path)
    ensures AtOrUnder(root + [name], q) ==> |root| < |q| && q[|root|] == name
  {
    if |root| < |q| {
      assert q[..|root| + 1][|root|] == q[|root|];
    }
  }

  lemma {:induction false} SplitByNames(d: Disk, root: Path, names: seq<string>)
    requires Distinct(names)
    ensures Bytes(d, root) == NamedBytes(d, root, names) + OtherBytes(d, root, names)
    decreases |names|
  {
    if names == [] {
      assert Others(d, root, names) == AtOrBelow(d, root);
    } else {
      hide Sum;
      var p, rest := root + [names[0]], names[1..];
      SplitByNames(d, root, rest);
      EntryInOthers(d, root, names);
      SumSplit(Size(d), Others(d, root, rest), AtOrBelow(d, p));
    }
  }

  lemma EntryInOthers(d: Disk, root: Path, names: seq<string>)
    requires Distinct(names) && names != []
    ensures AtOrBelow(d, root + [names[0]]) <= Others(d, root, names[1..])
    ensures Others(d, root, names[1..]) - AtOrBelow(d, root + [names[0]]) == Others(d, root, names)
  {
    var p := root + [names[0]];
    forall q | q in AtOrBelow(d, p)
      ensures q in Others(d, root, names[1..])
    {
      assert q[..|root|] == q[..|p|][..|root|] == root;
      forall n | n in names[1..]
        ensures !AtOrUnder(root + [n], q)
      {
        SiblingsApart(root, names[0], n, q);
      }
    }
    assert names == [names[0]] + names[1..];
  }

  /** Walking each named entry gives its bytes, and the linked directory's for a link. */
  lemma {:induction false} WalkNamesSplits(w: World, d: Disk, root: Path, names: seq<string>, total: nat)
    requires Lists(w) && Tree(d) && Canonical(d, root) && WithinCap(d, root)
    ensures WalkNames(View(w, d), root, names, total) ==
            total + NamedBytes(d, root, names) + NamedPhantom(w, d, root, names)
    decreases |names|
  {
    hide Lists, Tree, Canonical, WithinCap, DirectoryBytes, Bytes, Phantom;
    if names != [] {
      EntryWithinCap(d, root, names[0]);
      EntryWalk(w, d, root, names[0]);
      WalkNamesSplits(w, d, root, names[1..], total + DirectoryBytes(View(w, d), root + [names[0]]));
    }
  }

  lemma EntryWithinCap(d: Disk, root: Path, name: string)
    requires WithinCap(d, root)
    ensures WithinCap(d, root + [name])
  {
    forall q | q in Below(d, root + [name])
      ensures q in Below(d, root)
    {
      assert q[..|root|] == q[..|root| + 1][..|root|];
    }
    SubsetSize(Below(d, root + [name]), Below(d, root));
  }

  lemma CacheNamesDistinct()
    ensures Distinct(BROWSER_CACHE_DIRS)
  {
    assert forall i :: 0 <= i < 7 ==> |BROWSER_CACHE_DIRS[i]| == [5, 10, 8, 17, 15, 13, 11][i];
  }

  predicate NoneLinked(d: Disk, root: Path, names: seq<string>) {
    forall n :: n in names ==> !IsLinkAt(d, root + [n])
  }

  lemma {:induction false} NoPhantom(w: World, d: Disk, root: Path, names: seq<string>)
    requires NoneLinked(d, root, names)
    ensures NamedPhantom(w, d, root, names) == 0
    decreases |names|
  {
    if names != [] {
      NoPhantom(w, d, root, names[1..]);
    }
  }

  /**
   The config root's two entries. A cache directory that is a link counts the
   directory it points to, which the root's walk does not; the entries add up
   to the root exactly when those foreign bytes do not exceed the root's own
   bytes outside the caches, so without such links the clamp at zero never bites
   and "settings" is exactly what lies outside the cache directories.
   */
  lemma ConfigEntriesAddUp(w: World, d: Disk, dirs: StorageDirs)
    requires Lists(w) && Tree(d) && Canonical(d, dirs.configDir) && WithinCap(d, dirs.configDir)
    ensures var r := BuildStorageReport(View(w, d), dirs);
            var foreign := NamedPhantom(w, d, dirs.configDir, BROWSER_CACHE_DIRS);
            var own := OtherBytes(d, dirs.configDir, BROWSER_CACHE_DIRS);
            && r.configRoot == Bytes(d, dirs.configDir)
            && r.browserCaches == NamedBytes(d, dirs.configDir, BROWSER_CACHE_DIRS) + foreign
            && (r.browserCaches + r.settings == r.configRoot <==> foreign <= own)
            && (NoneLinked(d, dirs.configDir, BROWSER_CACHE_DIRS) ==>
                  r.browserCaches + r.settings == r.configRoot && r.settings == own)
  {
    hide Lists, Tree, Canonical, WithinCap, DirectoryBytes, Bytes, NamedBytes, NamedPhantom, OtherBytes, WalkNames,
         NoneLinked;
    var root := dirs.configDir;
    CanonicalWalk(w, d, root);
    WalkNamesSplits(w, d, root, BROWSER_CACHE_DIRS, 0);
    CacheNamesDistinct();
    SplitByNames(d, root, BROWSER_CACHE_DIRS);
    if NoneLinked(d, root, BROWSER_CACHE_DIRS) {
      NoPhantom(w, d, root, BROWSER_CACHE_DIRS);
    }
  }

  const DATA_FILES: seq<string> :=
    [CATALOG_DB_FILENAME, CATALOG_DB_FILENAME + "-wal", CATALOG_DB_FILENAME + "-shm", GPU_FALLBACK_MARKER]

  lemma DataNamesDistinct()
    ensures Distinct(DATA_FILES + [COVERS_DIRNAME])
  {
    var db := CATALOG_DB_FILENAME;
    assert (db + "-wal")[11..] == "-wal" && (db + "-shm")[11..] == "-shm";
    assert "-wal"[1] != "-shm"[1];
    assert |db| == 11 && |db + "-wal"| == 15 && |db + "-shm"| == 15 && |GPU_FALLBACK_MARKER| == 17 &&
           |COVERS_DIRNAME| == 6;
  }

  /** Bytes below the paths the report reads as single files: none unless one of them is a directory. */
  ghost function BelowFiles(d: Disk, root: Path, names: seq<string>): nat {
    if names == [] then 0 else Sum(Size(d), Below(d, root + [names[0]])) + BelowFiles(d, root, names[1..])
  }

  ghost function FileSizes(d: Disk, root: Path, names: seq<string>): nat {
    if names == [] then 0 else SizeAt(d, root + [names[0]]) + FileSizes(d, root, names[1..])
  }

  lemma {:induction false} FilesSplit(d: Disk, root: Path, names: seq<string>)
    ensures NamedBytes(d, root, names) == FileSizes(d, root, names) + BelowFiles(d, root, names)
    decreases |names|
  {
    if names != [] {
      OwnBytes(d, root + [names[0]]);
      FilesSplit(d, root, names[1..]);
    }
  }

  lemma {:induction false} NamedAppend(d: Disk, root: Path, names: seq<string>, last: string)
    ensures NamedBytes(d, root, names + [last]) == NamedBytes(d, root, names) + Bytes(d, root + [last])
    decreases |names|
  {
    hide Bytes;
    if names == [] {
      assert names + [last] == [last];
    } else {
      assert (names + [last])[1..] == names[1..] + [last];
      NamedAppend(d, root, names[1..], last);
    }
  }

  /** Bytes of the data root that no entry of the report shows. */
  ghost function UnlistedBytes(d: Disk, dataDir: Path): nat {
    OtherBytes(d, dataDir, DATA_FILES + [COVERS_DIRNAME]) + BelowFiles(d, dataDir, DATA_FILES)
  }

  lemma FourSizes(d: Disk, root: Path, a: string, b: string, c: string, e: string)
    ensures FileSizes(d, root, [a, b, c, e]) ==
            SizeAt(d, root + [a]) + SizeAt(d, root + [b]) + SizeAt(d, root + [c]) + SizeAt(d, root + [e])
  {
    hide SizeAt;
    assert [e][1..] == [];
    assert FileSizes(d, root, [e]) == SizeAt(d, root + [e]);
    assert FileSizes(d, root, [c, e]) == SizeAt(d, root + [c]) + FileSizes(d, root, [c, e][1..]);
    assert FileSizes(d, root, [b, c, e]) == SizeAt(d, root + [b]) + FileSizes(d, root, [b, c, e][1..]);
    assert [a, b, c, e][1..] == [b, c, e] && [b, c, e][1..] == [c, e] && [c, e][1..] == [e];
  }

  lemma DataFileSizes(w: World, d: Disk, dataDir: Path)
    requires Tree(d) && Canonical(d, dataDir)
    ensures var fs := View(w, d);
            CatalogBytes(fs, dataDir) + FileBytes(fs, dataDir + [GPU_FALLBACK_MARKER]) ==
              FileSizes(d, dataDir, DATA_FILES)
  {
    hide Tree, Canonical, View, SizeAt, FileBytes;
    var db := CATALOG_DB_FILENAME;
    EntryStat(w, d, dataDir, db);
    EntryStat(w, d, dataDir, db + "-wal");
    EntryStat(w, d, dataDir, db + "-shm");
    EntryStat(w, d, dataDir, GPU_FALLBACK_MARKER);
    FourSizes(d, dataDir, db, db + "-wal", db + "-shm", GPU_FALLBACK_MARKER);
  }

  /**
   The data root's three entries count nothing twice: with what they leave out
   they add up to the root and to the bytes a linked cover directory brings in.
   They stay within the root exactly when those do not exceed what is left out.
   */
  lemma DataEntriesFit(w: World, d: Disk, dirs: StorageDirs)
    requires Lists(w) && Tree(d) && Canonical(d, dirs.dataDir) && WithinCap(d, dirs.dataDir)
    ensures var r := BuildStorageReport(View(w, d), dirs);
            var foreign := Phantom(w, d, dirs.dataDir + [COVERS_DIRNAME]);
            var left := UnlistedBytes(d, dirs.dataDir);
            && r.dataRoot == Bytes(d, dirs.dataDir)
            && r.catalog + r.covers + r.gpuMarker + left == r.dataRoot + foreign
            && (r.catalog + r.covers + r.gpuMarker <= r.dataRoot <==> foreign <= left)
            && (!IsLinkAt(d, dirs.dataDir + [COVERS_DIRNAME]) ==> r.catalog + r.covers + r.gpuMarker <= r.dataRoot)
  {
    hide Lists, Tree, Canonical, WithinCap, DirectoryBytes, Bytes, NamedBytes, OtherBytes, BelowFiles, FileSizes,
         CatalogBytes, BrowserCacheBytes, FileBytes;
    var root := dirs.dataDir;
    CanonicalWalk(w, d, root);
    EntryWithinCap(d, root, COVERS_DIRNAME);
    EntryWalk(w, d, root, COVERS_DIRNAME);
    DataFileSizes(w, d, root);
    FilesSplit(d, root, DATA_FILES);
    NamedAppend(d, root, DATA_FILES, COVERS_DIRNAME);
    DataNamesDistinct();
    SplitByNames(d, root, DATA_FILES + [COVERS_DIRNAME]);
  }

  /** The catalog is three files, and the marker one. */
  lemma CatalogIsThreeFiles(w: World, d: Disk, dataDir: Path)
    requires Tree(d) && Canonical(d, dataDir)
    ensures CatalogBytes(View(w, d), dataDir) ==
            SizeAt(d, dataDir + ["tuxbooks.db"]) + SizeAt(d, dataDir + ["tuxbooks.db-wal"])
            + SizeAt(d, dataDir + ["tuxbooks.db-shm"])
    ensures FileBytes(View(w, d), dataDir + [GPU_FALLBACK_MARKER]) == SizeAt(d, dataDir + ["gpu-fallback.json"])
  {
    hide Tree, Canonical, View, SizeAt, FileBytes;
    var db := CATALOG_DB_FILENAME;
    assert db + "-wal" == "tuxbooks.db-wal" && db + "-shm" == "tuxbooks.db-shm";
    EntryStat(w, d, dataDir, db);
    EntryStat(w, d, dataDir, db + "-wal");
    EntryStat(w, d, dataDir, db + "-shm");
    EntryStat(w, d, dataDir, GPU_FALLBACK_MARKER);
  }

  /** The cache directories of the config root, by name. */
  lemma CacheNames()
    ensures BROWSER_CACHE_DIRS ==
            ["Cache", "Code Cache", "GPUCache", "DawnGraphiteCache", "DawnWebGPUCache", "GrShaderCache", "ShaderCache"]
  {
  }

  /**
   What each number of the report is a number of: the catalog its database and
   the two files beside it, the covers theirs, and the caches the bytes of seven
   directories; a linked directory counts with what it leads to.
   */
  lemma ReportSaysWhatIsThere(w: World, d: Disk, dirs: StorageDirs)
    requires Lists(w) && Tree(d)
    requires Canonical(d, dirs.dataDir) && WithinCap(d, dirs.dataDir)
    requires Canonical(d, dirs.configDir) && WithinCap(d, dirs.configDir)
    ensures var r := BuildStorageReport(View(w, d), dirs);
            var data, config := dirs.dataDir, dirs.configDir;
            var names := ["Cache", "Code Cache", "GPUCache", "DawnGraphiteCache", "DawnWebGPUCache", "GrShaderCache",
                          "ShaderCache"];
            var caches := NamedBytes(d, config, names) + NamedPhantom(w, d, config, names);
            && r.dataRoot == Bytes(d, data) && r.configRoot == Bytes(d, config)
            && r.catalog == SizeAt(d, data + ["tuxbooks.db"]) + SizeAt(d, data + ["tuxbooks.db-wal"])
                            + SizeAt(d, data + ["tuxbooks.db-shm"])
            && r.covers == Bytes(d, data + ["covers"]) + Phantom(w, d, data + ["covers"])
            && r.gpuMarker == SizeAt(d, data + ["gpu-fallback.json"])
            && r.browserCaches == caches
            && r.settings == (if Bytes(d, config) > caches then Bytes(d, config) - caches else 0)
            && r.appDataBytes == Bytes(d, data) + Bytes(d, config)
            && r.cacheBytes == caches + SizeAt(d, data + ["gpu-fallback.json"])
  {
    hide Lists, Tree, Canonical, WithinCap, DirectoryBytes, Bytes, NamedBytes, NamedPhantom, WalkNames, CatalogBytes,
         FileBytes, SizeAt, Phantom, View;
    CanonicalWalk(w, d, dirs.dataDir);
    CanonicalWalk(w, d, dirs.configDir);
    EntryWithinCap(d, dirs.dataDir, COVERS_DIRNAME);
    EntryWalk(w, d, dirs.dataDir, COVERS_DIRNAME);
    CatalogIsThreeFiles(w, d, dirs.dataDir);
    WalkNamesSplits(w, d, dirs.configDir, BROWSER_CACHE_DIRS, 0);
    CacheNames();
    hide BROWSER_CACHE_DIRS;
  }
}
