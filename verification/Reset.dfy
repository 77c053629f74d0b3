/**
 Clearing the caches and resetting the app data: what is removed, what is
 counted as freed, and where the catalog database goes.
 */
module Reset {
  import opened Text
  import opened Paths
  import opened Walk
  import opened Volume
  import opened Storage

  const QUARANTINE_ATTEMPTS: nat := 1_000

  datatype Target = Target(root: Path, name: string)

  function Place(t: Target): Path {
    t.root + [t.name]
  }

  function TargetsIn(root: Path, names: seq<string>): seq<Target> {
    if names == [] then [] else [Target(root, names[0])] + TargetsIn(root, names[1..])
  }

  function ClearTargets(dirs: StorageDirs): seq<Target> {
    TargetsIn(dirs.configDir, BROWSER_CACHE_DIRS) + [Target(dirs.dataDir, GPU_FALLBACK_MARKER)]
  }

  predicate MayRemove(w: World, d: Disk, t: Target) {
    IsContained(p => RealPathOf(w, d, p), t.root, Place(t)) && !w.busy(d, Place(t))
  }

  /** The bytes one removal reports; None when it is refused or fails. */
  function Freed(w: World, d: Disk, t: Target): Option<nat> {
    if MayRemove(w, d, t) then Some(DirectoryBytes(View(w, d), Place(t))) else None
  }

  function AfterRemoval(w: World, d: Disk, t: Target): Disk {
    if MayRemove(w, d, t) then Rm(d, EntryOf(w, d, Place(t))) else d
  }

  datatype Sweep = Sweep(disk: Disk, removed: seq<Path>, freed: nat)

  function RemoveOne(w: World, s: Sweep, t: Target): Sweep {
    match Freed(w, s.disk, t)
    case Some(bytes) => Sweep(AfterRemoval(w, s.disk, t), s.removed + [Place(t)], s.freed + bytes)
    case None => s
  }

  function RemoveAll(w: World, s: Sweep, targets: seq<Target>): Sweep
    decreases |targets|
  {
    if targets == [] then s else RemoveAll(w, RemoveOne(w, s, targets[0]), targets[1..])
  }

  //// The database.

  function Candidate(stamp: string, attempt: nat): string {
    if attempt == 0 then
      CATALOG_DB_FILENAME + ".corrupt-" + stamp
    else
      CATALOG_DB_FILENAME + ".corrupt-" + stamp + "-" + Decimal(attempt)
  }

  /** The first candidate from `attempt` on that does not exist, or the name carrying the time. */
  function QuarantineTarget(w: World, d: Disk, dataDir: Path, stamp: string, millis: nat, attempt: nat): string
    decreases QUARANTINE_ATTEMPTS - attempt
  {
    if attempt >= QUARANTINE_ATTEMPTS then
      Candidate(stamp, 0) + "-" + Decimal(millis)
    else if !Exists(w, d, dataDir + [Candidate(stamp, attempt)]) then
      Candidate(stamp, attempt)
    else
      QuarantineTarget(w, d, dataDir, stamp, millis, attempt + 1)
  }

  function RenameIn(w: World, d: Disk, dir: Path, from: string, to: string): Option<Disk> {
    Rename(w, d, EntryOf(w, d, dir + [from]), EntryOf(w, d, dir + [to]))
  }

  /** A sidecar file follows the database if it exists and can be renamed. */
  function MoveSidecar(w: World, d: Disk, dir: Path, target: string, suffix: string): Disk {
    if !Exists(w, d, dir + [CATALOG_DB_FILENAME + suffix]) then
      d
    else
      match RenameIn(w, d, dir, CATALOG_DB_FILENAME + suffix, target + suffix)
      case Some(moved) => moved
      case None => d
  }

  datatype Quarantine = NoDatabase | Refused | Quarantined(disk: Disk, target: string)

  function QuarantineDatabase(w: World, d: Disk, dataDir: Path, stamp: string, millis: nat): Quarantine {
    if !Exists(w, d, dataDir + [CATALOG_DB_FILENAME]) then
      NoDatabase
    else
      var target := QuarantineTarget(w, d, dataDir, stamp, millis, 0);
      match RenameIn(w, d, dataDir, CATALOG_DB_FILENAME, target)
      case None => Refused
      case Some(moved) =>
        Quarantined(MoveSidecar(w, MoveSidecar(w, moved, dataDir, target, "-wal"), dataDir, target, "-shm"), target)
  }

  //// The whole reset.

  function Settings(names: seq<string>): seq<string> {
    if names == [] then []
    else if names[0] in BROWSER_CACHE_DIRS then Settings(names[1..])
    else [names[0]] + Settings(names[1..])
  }

  function ConfigNames(w: World, d: Disk, configDir: Path): seq<string> {
    match Readdir(w, d, configDir)
    case Some(names) => names
    case None => []
  }

  /** `Threw` is a reset ended by a database that could not be renamed. */
  datatype Outcome =
    | Threw(disk: Disk)
    | Finished(disk: Disk, removed: seq<Path>, quarantined: Option<string>, freed: nat)

  /** The caches and the marker, then the covers; the cache clear reports bytes but no paths. */
  function ClearedAndUncovered(w: World, d: Disk, dirs: StorageDirs): Sweep {
    var cleared := RemoveAll(w, Sweep(d, [], 0), ClearTargets(dirs));
    RemoveOne(w, Sweep(cleared.disk, [], cleared.freed), Target(dirs.dataDir, COVERS_DIRNAME))
  }

  function SweepSettings(w: World, s: Sweep, configDir: Path): Sweep {
    RemoveAll(w, s, TargetsIn(configDir, Settings(ConfigNames(w, s.disk, configDir))))
  }

  function ResetAppData(w: World, d: Disk, dirs: StorageDirs, stamp: string, millis: nat): Outcome {
    var s := ClearedAndUncovered(w, d, dirs);
    match QuarantineDatabase(w, s.disk, dirs.dataDir, stamp, millis)
    case Refused => Threw(s.disk)
    case NoDatabase =>
      var end := SweepSettings(w, s, dirs.configDir);
      Finished(end.disk, end.removed, None, end.freed)
    case Quarantined(moved, target) =>
      var end := SweepSettings(w, s.(disk := moved), dirs.configDir);
      Finished(end.disk, end.removed, Some(target), end.freed)
  }

  lemma NothingToRemove(w: World, s: Sweep)
    ensures RemoveAll(w, s, []) == s
  {
  }

  lemma NoSettings(w: World, s: Sweep, root: Path)
    ensures RemoveAll(w, s, TargetsIn(root, Settings([]))) == s
  {
  }

  lemma RemoveAllStep(w: World, s: Sweep, targets: seq<Target>, i: nat)
    requires i < |targets|
    ensures RemoveAll(w, s, targets[i..]) == RemoveAll(w, RemoveOne(w, s, targets[i]), targets[i + 1..])
  {
    hide RemoveOne;
    assert targets[i..][1..] == targets[i + 1..];
  }

  lemma SettingsStep(w: World, s: Sweep, root: Path, names: seq<string>, i: nat)
    requires i < |names|
    ensures RemoveAll(w, s, TargetsIn(root, Settings(names[i..]))) ==
            RemoveAll(w, if names[i] in BROWSER_CACHE_DIRS then s else RemoveOne(w, s, Target(root, names[i])),
                      TargetsIn(root, Settings(names[i + 1..])))
  {
    hide RemoveOne;
    assert names[i..][0] == names[i] && names[i..][1..] == names[i + 1..];
    var later := Settings(names[i + 1..]);
    assert ([names[i]] + later)[1..] == later;
    assert ([Target(root, names[i])] + TargetsIn(root, later))[1..] == TargetsIn(root, later);
  }

  //// The program, which changes the disk as it goes.

  class Machine {
    const w: World
    var disk: Disk

    constructor (w: World, disk: Disk)
      ensures this.w == w && this.disk == disk
    {
      this.w := w;
      this.disk := disk;
    }

    /** `removeContained`: refuse, measure, remove. */
    method RemoveContained(root: Path, name: string) returns (freed: Option<nat>)
      modifies this
      ensures freed == Freed(w, old(disk), Target(root, name))
      ensures disk == AfterRemoval(w, old(disk), Target(root, name))
      ensures freed.None? ==> disk == old(disk)
    {
      var target := root + [name];
      var d := disk;
      if !IsContained(p => RealPathOf(w, d, p), root, target) {
        return None;
      }
      var bytes := ComputeDirectoryBytes(View(w, disk), target);
      if w.busy(disk, target) {
        return None;
      }
      disk := Rm(disk, EntryOf(w, disk, target));
      return Some(bytes);
    }

    method ClearAppCache(dirs: StorageDirs) returns (freed: nat)
      modifies this
      ensures var s := RemoveAll(w, Sweep(old(disk), [], 0), ClearTargets(dirs)); disk == s.disk && freed == s.freed
    {
      hide RemoveAll, Freed, AfterRemoval, ClearTargets;
      freed := 0;
      var targets := ClearTargets(dirs);
      ghost var whole := RemoveAll(w, Sweep(disk, [], 0), targets);
      ghost var removed: seq<Path> := [];
      var i := 0;
      assert targets[0..] == targets;
      while i < |targets|
        invariant 0 <= i <= |targets|
        invariant RemoveAll(w, Sweep(disk, removed, freed), targets[i..]) == whole
      {
        var t := targets[i];
        RemoveAllStep(w, Sweep(disk, removed, freed), targets, i);
        var bytes := RemoveContained(t.root, t.name);
        if bytes.Some? {
          freed := freed + bytes.value;
          removed := removed + [Place(t)];
        }
        i := i + 1;
      }
      assert targets[i..] == [];
      NothingToRemove(w, Sweep(disk, removed, freed));
    }

    method FindQuarantineTarget(dataDir: Path, stamp: string, millis: nat) returns (target: string)
      ensures target == QuarantineTarget(w, disk, dataDir, stamp, millis, 0)
    {
      var attempt: nat := 0;
      while attempt < QUARANTINE_ATTEMPTS
        invariant attempt <= QUARANTINE_ATTEMPTS
        invariant QuarantineTarget(w, disk, dataDir, stamp, millis, attempt) ==
                  QuarantineTarget(w, disk, dataDir, stamp, millis, 0)
      {
        if !Exists(w, disk, dataDir + [Candidate(stamp, attempt)]) {
          return Candidate(stamp, attempt);
        }
        attempt := attempt + 1;
      }
      return Candidate(stamp, 0) + "-" + Decimal(millis);
    }

    method FollowDatabase(dataDir: Path, target: string, suffix: string)
      modifies this
      ensures disk == MoveSidecar(w, old(disk), dataDir, target, suffix)
    {
      if Exists(w, disk, dataDir + [CATALOG_DB_FILENAME + suffix]) {
        var moved := RenameIn(w, disk, dataDir, CATALOG_DB_FILENAME + suffix, target + suffix);
        if moved.Some? {
          disk := moved.value;
        }
      }
    }

    method MoveDatabaseAside(dataDir: Path, stamp: string, millis: nat) returns (r: Quarantine)
      modifies this
      ensures r == QuarantineDatabase(w, old(disk), dataDir, stamp, millis)
      ensures disk == if r.Quarantined? then r.disk else old(disk)
    {
      if !Exists(w, disk, dataDir + [CATALOG_DB_FILENAME]) {
        return NoDatabase;
      }
      var target := FindQuarantineTarget(dataDir, stamp, millis);
      var moved := RenameIn(w, disk, dataDir, CATALOG_DB_FILENAME, target);
      if moved.None? {
        return Refused;
      }
      disk := moved.value;
      FollowDatabase(dataDir, target, "-wal");
      FollowDatabase(dataDir, target, "-shm");
      return Quarantined(disk, target);
    }

    method SweepConfig(configDir: Path, removed: seq<Path>, freed: nat) returns (paths: seq<Path>, bytes: nat)
      modifies this
      ensures Sweep(disk, paths, bytes) == SweepSettings(w, Sweep(old(disk), removed, freed), configDir)
    {
      hide RemoveAll, Freed, AfterRemoval, Settings, TargetsIn, ConfigNames;
      paths, bytes := removed, freed;
      var names := ConfigNames(w, disk, configDir);
      ghost var whole := SweepSettings(w, Sweep(disk, removed, freed), configDir);
      assert names[0..] == names;
      var i := 0;
      while i < |names|
        invariant 0 <= i <= |names|
        invariant RemoveAll(w, Sweep(disk, paths, bytes), TargetsIn(configDir, Settings(names[i..]))) == whole
      {
        SettingsStep(w, Sweep(disk, paths, bytes), configDir, names, i);
        if names[i] !in BROWSER_CACHE_DIRS {
          var freedHere := RemoveContained(configDir, names[i]);
          if freedHere.Some? {
            paths := paths + [configDir + [names[i]]];
            bytes := bytes + freedHere.value;
          }
        }
        i := i + 1;
      }
      assert names[i..] == [];
      NoSettings(w, Sweep(disk, paths, bytes), configDir);
    }

    method ResetData(dirs: StorageDirs, stamp: string, millis: nat) returns (r: Outcome)
      modifies this
      ensures r == ResetAppData(w, old(disk), dirs, stamp, millis) && disk == r.disk
    {
      hide RemoveAll, Freed, AfterRemoval, SweepSettings, QuarantineDatabase;
      var freed := ClearAppCache(dirs);
      var removed: seq<Path> := [];
      var covers := RemoveContained(dirs.dataDir, COVERS_DIRNAME);
      if covers.Some? {
        removed := removed + [dirs.dataDir + [COVERS_DIRNAME]];
        freed := freed + covers.value;
      }
      var q := MoveDatabaseAside(dirs.dataDir, stamp, millis);
      if q.Refused? {
        return Threw(disk);
      }
      removed, freed := SweepConfig(dirs.configDir, removed, freed);
      return Finished(disk, removed, if q.Quarantined? then Some(q.target) else None, freed);
    }
  }
}
