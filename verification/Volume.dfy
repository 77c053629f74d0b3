/**
 The file system the sizes and the reset work on: a finite tree of nodes, with
 links resolved by the operating system, removal of a subtree, and renaming.
 */
module Volume {
  import opened Text
  import opened Paths
  import opened Sums
  import opened Walk

  datatype Node = Dir | File(content: string) | Link | Special

  type Disk = map<Path, Node>

  /**
   What the operating system decides: the order of a directory listing, the
   real path of a name that goes through a link, and which removals and
   renames it refuses.
   */
  datatype World = World(order: set<string> -> seq<string>,
                         follow: (Disk, Path) -> Option<Path>,
                         busy: (Disk, Path) -> bool,
                         locked: (Disk, Path, Path) -> bool)

  /** A listing names every entry once. */
  ghost predicate Lists(w: World) {
    forall names :: Distinct(w.order(names)) && (forall n :: n in w.order(names) <==> n in names)
  }

  /** Everything but the root lies in a directory. */
  ghost predicate Tree(d: Disk) {
    && ([] in d ==> d[[]] == Dir)
    && (forall p {:trigger InDir(d, p)} :: p in d ==> InDir(d, p))
  }

  predicate InDir(d: Disk, p: Path) {
    p == [] || (Parent(p) in d && d[Parent(p)] == Dir)
  }

  predicate IsLinkAt(d: Disk, p: Path) {
    p in d && d[p] == Link
  }

  predicate ThroughLink(d: Disk, p: Path) {
    exists k :: 0 <= k <= |p| && IsLinkAt(d, p[..k])
  }

  /** A path with no link on it, missing or not. */
  predicate Canonical(d: Disk, p: Path) {
    !ThroughLink(d, p)
  }

  function RealPathOf(w: World, d: Disk, p: Path): Option<Path> {
    if ThroughLink(d, p) then w.follow(d, p) else if p in d then Some(p) else None
  }

  predicate Exists(w: World, d: Disk, p: Path) {
    RealPathOf(w, d, p).Some?
  }

  function Names(d: Disk, p: Path): set<string> {
    set q | q in d && q != [] && Parent(q) == p :: Last(q)
  }

  function Readdir(w: World, d: Disk, p: Path): Option<seq<string>> {
    match RealPathOf(w, d, p)
    case Some(q) => if q in d && d[q] == Dir then Some(w.order(Names(d, q))) else None
    case None => None
  }

  function StatOf(n: Node): Stat {
    match n
    case Dir => IsDir
    case File(content) => IsFile(|content|)
    case Link => IsLink
    case Special => IsOther
  }

  /** The last segment is not followed. */
  function Lstat(w: World, d: Disk, p: Path): Option<Stat> {
    if p == [] then
      Some(IsDir)
    else
      match RealPathOf(w, d, Parent(p))
      case Some(q) => if q + [Last(p)] in d then Some(StatOf(d[q + [Last(p)]])) else None
      case None => None
  }

  function View(w: World, d: Disk): FileSystem {
    FileSystem(p => Readdir(w, d, p), p => Lstat(w, d, p))
  }

  //// Sizes.

  function SizeAt(d: Disk, p: Path): nat {
    if p in d && d[p].File? then |d[p].content| else 0
  }

  ghost function Size(d: Disk): Path -> nat {
    p => SizeAt(d, p)
  }

  function Below(d: Disk, p: Path): set<Path> {
    set q | q in d && Under(p, q)
  }

  function AtOrBelow(d: Disk, p: Path): set<Path> {
    set q | q in d && AtOrUnder(p, q)
  }

  /** Bytes of the regular files at and below p. */
  ghost function Bytes(d: Disk, p: Path): nat {
    Sum(Size(d), AtOrBelow(d, p))
  }

  //// Names below a canonical directory resolve to themselves.

  lemma {:induction false} DirsAbove(d: Disk, p: Path, k: nat)
    requires Tree(d) && p in d && k < |p|
    ensures p[..k] in d && d[p[..k]] == Dir
    decreases |p|
  {
    assert InDir(d, p);
    if k < |p| - 1 {
      DirsAbove(d, Parent(p), k);
      assert Parent(p)[..k] == p[..k];
    }
  }

  lemma RealHere(w: World, d: Disk, p: Path)
    requires Tree(d) && p in d && d[p] != Link
    ensures Canonical(d, p) && RealPathOf(w, d, p) == Some(p)
  {
    forall k | 0 <= k <= |p|
      ensures !IsLinkAt(d, p[..k])
    {
      if k < |p| {
        DirsAbove(d, p, k);
      } else {
        assert p[..k] == p;
      }
    }
  }

  /** A direct entry of a canonical directory is a link, or its own real path, or missing. */
  lemma EntryResolves(w: World, d: Disk, root: Path, name: string)
    requires Canonical(d, root)
    ensures var p := root + [name];
            && (ThroughLink(d, p) <==> IsLinkAt(d, p))
            && RealPathOf(w, d, p) == (if IsLinkAt(d, p) then w.follow(d, p) else if p in d then Some(p) else None)
  {
    var p := root + [name];
    assert p[..|p|] == p;
    forall k | 0 <= k <= |root|
      ensures !IsLinkAt(d, p[..k])
    {
      assert p[..k] == root[..k];
    }
  }

  lemma ParentIsDir(d: Disk, p: Path)
    requires Tree(d) && p in d && p != []
    ensures Parent(p) in d && d[Parent(p)] == Dir && Parent(p) + [Last(p)] == p
  {
    assert InDir(d, p);
  }

  lemma LstatHere(w: World, d: Disk, p: Path)
    requires Tree(d) && p in d
    ensures Lstat(w, d, p) == Some(StatOf(d[p]))
  {
    hide Canonical, RealPathOf, Parent, Last;
    if p != [] {
      ParentIsDir(d, p);
      hide Tree;
      RealHere(w, d, Parent(p));
    }
  }

  //// The walk of a directory is the sum over what lies below it.

  lemma ListedIsEntry(w: World, d: Disk, p: Path, name: string)
    requires Lists(w) && Tree(d) && p in d && d[p] == Dir
    ensures Readdir(w, d, p).Some? && Distinct(Readdir(w, d, p).value)
    ensures name in Readdir(w, d, p).value <==> p + [name] in d
  {
    hide Canonical, Distinct, RealPathOf, Names;
    RealHere(w, d, p);
    hide Tree;
    NamesAreEntries(d, p, name);
  }

  lemma NamesAreEntries(d: Disk, p: Path, name: string)
    ensures name in Names(d, p) <==> p + [name] in d
  {
    if p + [name] in d {
      ChildOf(p, name);
    }
    if name in Names(d, p) {
      var q :| q in d && q != [] && Parent(q) == p && Last(q) == name;
      assert q == p + [name];
    }
  }

  lemma ExpandedIsDir(w: World, d: Disk, root: Path, p: Path)
    requires Tree(d) && root in d && d[root] == Dir
    ensures Expanded(View(w, d), root, Below(d, root), p) <==>
            AtOrUnder(root, p) && p in d && d[p] == Dir
  {
    hide RealPathOf;
    if AtOrUnder(root, p) && |p| == |root| {
      assert p == root;
    }
    if p in d {
      LstatHere(w, d, p);
    }
  }

  lemma UnderParent(root: Path, p: Path)
    requires Under(root, p)
    ensures AtOrUnder(root, Parent(p)) && p == Parent(p) + [Last(p)]
  {
    assert Parent(p)[..|root|] == p[..|root|];
  }

  lemma DirIsCovered(w: World, d: Disk, root: Path)
    requires Lists(w) && Tree(d) && root in d && d[root] == Dir
    ensures Covers(View(w, d), root, Below(d, root)) && View(w, d).readdir(root).Some?
  {
    hide Lists, Tree, Readdir, Lstat, Expanded, Parent, Last, Under, AtOrUnder, Distinct;
    var fs, tree := View(w, d), Below(d, root);
    forall p | p in tree
      ensures Entered(fs, root, tree, p)
    {
      UnderParent(root, p);
      EntryOfDir(d, p, root);
      ExpandedIsDir(w, d, root, Parent(p));
      ListedIsEntry(w, d, Parent(p), Last(p));
    }
    forall p | Expanded(fs, root, tree, p) && fs.readdir(p).Some?
      ensures Distinct(fs.readdir(p).value)
    {
      ExpandedIsDir(w, d, root, p);
      ListedIsEntry(w, d, p, "");
    }
    forall p, name | Expanded(fs, root, tree, p) && Listed(fs, p, name)
      ensures p + [name] in tree
    {
      ExpandedIsDir(w, d, root, p);
      ListedIsEntry(w, d, p, name);
      EntryIsUnder(root, p, name);
    }
    ListedIsEntry(w, d, root, "");
  }

  lemma EntryOfDir(d: Disk, p: Path, root: Path)
    requires Tree(d) && p in d && Under(root, p)
    ensures Parent(p) in d && d[Parent(p)] == Dir
  {
    ParentIsDir(d, p);
  }

  lemma EntryIsUnder(root: Path, p: Path, name: string)
    requires AtOrUnder(root, p)
    ensures Under(root, p + [name])
  {
    assert (p + [name])[..|root|] == p[..|root|];
  }

  /** Everything the walk may visit below p. */
  predicate WithinCap(d: Disk, p: Path) {
    |Below(d, p)| <= MAX_WALK_ENTRIES
  }

  /** Within the cap, the walk of anything that is not a link is the bytes at and below it. */
  lemma WalkIsBytes(w: World, d: Disk, p: Path)
    requires Lists(w) && Tree(d) && p in d && d[p] != Link && WithinCap(d, p)
    ensures DirectoryBytes(View(w, d), p) == Bytes(d, p)
  {
    hide Lists, Readdir, Lstat, DirectoryBytes, Covers, Sum, RealPathOf;
    var fs := View(w, d);
    if d[p] == Dir {
      DirIsCovered(w, d, p);
      WalkIsSum(fs, p, Below(d, p));
      SizesAgree(w, d, Below(d, p));
      OwnBytes(d, p);
    } else {
      LstatHere(w, d, p);
      NotListed(w, d, p);
      WalkOfFile(fs, p);
      NothingBelow(d, p);
      SumOne(Size(d), p);
    }
  }

  lemma NotListed(w: World, d: Disk, p: Path)
    requires Tree(d) && p in d && d[p] != Link && d[p] != Dir
    ensures Readdir(w, d, p).None?
  {
    RealHere(w, d, p);
  }

  lemma NothingListed(w: World, d: Disk, p: Path)
    requires Canonical(d, p) && p !in d
    ensures Readdir(w, d, p).None?
  {
  }

  lemma SizesAgree(w: World, d: Disk, s: set<Path>)
    requires Tree(d) && forall p :: p in s ==> p in d
    ensures Sum(Sizes(View(w, d)), s) == Sum(Size(d), s)
  {
    hide RealPathOf;
    forall p | p in s
      ensures Sizes(View(w, d))(p) == Size(d)(p)
    {
      LstatHere(w, d, p);
    }
    SumSame(Sizes(View(w, d)), Size(d), s);
  }

  lemma SumOne(f: Path -> nat, p: Path)
    ensures Sum(f, {p}) == f(p)
  {
    SumTake(f, {p}, p);
    assert {p} - {p} == {};
  }

  /** The bytes at and below p are its own and those below it. */
  lemma OwnBytes(d: Disk, p: Path)
    ensures Bytes(d, p) == SizeAt(d, p) + Sum(Size(d), Below(d, p))
  {
    forall q | q in AtOrBelow(d, p) && q !in Below(d, p)
      ensures q == p
    {
      assert |q| == |p| && q[..|p|] == q;
    }
    if p in d {
      assert AtOrBelow(d, p) == Below(d, p) + {p};
      SumAdd(Size(d), Below(d, p), p);
    } else {
      assert AtOrBelow(d, p) == Below(d, p);
    }
  }

  lemma NothingBelow(d: Disk, p: Path)
    requires Tree(d) && p in d && d[p] != Dir
    ensures Below(d, p) == {} && AtOrBelow(d, p) == {p}
  {
    forall q | q in d && |q| > |p|
      ensures q[..|p|] != p
    {
      DirsAbove(d, q, |p|);
    }
    forall q | q in AtOrBelow(d, p)
      ensures q == p
    {
      assert q[..|p|] == p && |q| == |p|;
    }
  }

  lemma NothingThere(d: Disk, p: Path)
    requires Tree(d) && p !in d
    ensures AtOrBelow(d, p) == {} && Bytes(d, p) == 0
  {
    forall q | q in d && |q| >= |p|
      ensures q[..|p|] in d
    {
      if |q| > |p| {
        DirsAbove(d, q, |p|);
      } else {
        assert q[..|p|] == q;
      }
    }
    assert AtOrBelow(d, p) == {};
  }

  /** The walk of a path with no link on it, whether anything is there or not. */
  lemma CanonicalWalk(w: World, d: Disk, p: Path)
    requires Lists(w) && Tree(d) && Canonical(d, p) && WithinCap(d, p)
    ensures DirectoryBytes(View(w, d), p) == Bytes(d, p)
  {
    hide Lists, DirectoryBytes, Sum;
    if p in d {
      assert d[p] != Link by {
        assert p[..|p|] == p && !IsLinkAt(d, p[..|p|]);
      }
      WalkIsBytes(w, d, p);
    } else {
      NothingThere(d, p);
      NothingListed(w, d, p);
      WalkOfFile(View(w, d), p);
      if p != [] {
        assert Canonical(d, Parent(p)) by {
          assert forall k :: 0 <= k <= |Parent(p)| ==> Parent(p)[..k] == p[..k];
        }
        assert Parent(p) + [Last(p)] == p;
        EntryMissing(w, d, Parent(p), Last(p));
      }
    }
  }

  /** What the walk of an entry adds when that entry is a link: the linked directory's bytes, which are not below it. */
  ghost function Phantom(w: World, d: Disk, p: Path): nat {
    if IsLinkAt(d, p) then DirectoryBytes(View(w, d), p) else 0
  }

  /** The walk of one direct entry of a canonical directory. */
  lemma EntryWalk(w: World, d: Disk, root: Path, name: string)
    requires Lists(w) && Tree(d) && Canonical(d, root) && WithinCap(d, root + [name])
    ensures DirectoryBytes(View(w, d), root + [name]) == Bytes(d, root + [name]) + Phantom(w, d, root + [name])
  {
    hide Lists, DirectoryBytes, Sum, ThroughLink, Canonical, Lstat;
    var p := root + [name];
    EntryResolves(w, d, root, name);
    if IsLinkAt(d, p) {
      NothingBelow(d, p);
      SumOne(Size(d), p);
    } else if p in d {
      WalkIsBytes(w, d, p);
    } else {
      NothingThere(d, p);
      assert Readdir(w, d, p).None?;
      WalkOfFile(View(w, d), p);
      EntryMissing(w, d, root, name);
    }
  }

  lemma EntryMissing(w: World, d: Disk, root: Path, name: string)
    requires Tree(d) && Canonical(d, root) && root + [name] !in d
    ensures FileBytes(View(w, d), root + [name]) == 0
  {
    ChildOf(root, name);
  }

  /** The size of one direct entry, read without following it. */
  lemma EntryStat(w: World, d: Disk, root: Path, name: string)
    requires Tree(d) && Canonical(d, root)
    ensures FileBytes(View(w, d), root + [name]) == SizeAt(d, root + [name])
  {
    hide RealPathOf, Canonical, Lstat;
    if root + [name] in d {
      LstatHere(w, d, root + [name]);
    } else {
      EntryMissing(w, d, root, name);
    }
  }

  //// Removal of a subtree and renaming.

  /** `rm -rf`: the entry itself goes, and what lies below it; a link is not followed. */
  function Rm(d: Disk, p: Path): Disk {
    map q | q in d && !AtOrUnder(p, q) :: d[q]
  }

  /** Where an entry at or below `to` was before the move. */
  function Source(from: Path, to: Path, q: Path): Path
    requires AtOrUnder(to, q)
  {
    from + q[|to|..]
  }

  /** The node at `from`, with everything below it, takes the place of `to`. */
  function Moved(d: Disk, from: Path, to: Path): Disk {
    var image := set q | q in d && AtOrUnder(from, q) :: to + q[|from|..];
    map q | && q in d.Keys + image
            && (if AtOrUnder(to, q) then Source(from, to, q) in d else q in d && !AtOrUnder(from, q)) ::
      if AtOrUnder(to, q) then d[Source(from, to, q)] else d[q]
  }

  /** A file replaces a file or a link, a directory an empty directory; None stands for a rename that throws. */
  function Rename(w: World, d: Disk, from: Path, to: Path): Option<Disk> {
    if || from !in d
       || w.locked(d, from, to)
       || (to in d && ((d[from] == Dir) != (d[to] == Dir) || Below(d, to) != {})) then
      None
    else
      Some(Moved(d, from, to))
  }

  /** The entry a name denotes: its directory is resolved, its last segment is not. */
  function EntryOf(w: World, d: Disk, p: Path): Path {
    match RealPathOf(w, d, Parent(p))
    case Some(q) => q + [Last(p)]
    case None => p
  }

  lemma RmKeepsTree(d: Disk, p: Path)
    requires Tree(d)
    ensures Tree(Rm(d, p))
  {
    forall q | q in Rm(d, p)
      ensures InDir(Rm(d, p), q)
    {
      assert InDir(d, q);
      if |p| <= |Parent(q)| {
        assert q[..|p|] == Parent(q)[..|p|];
      }
    }
  }

  lemma EntryIsItself(w: World, d: Disk, root: Path, name: string)
    requires Canonical(d, root)
    ensures EntryOf(w, d, root + [name]) == root + [name]
  {
    ChildOf(root, name);
  }

  /** Removing entries adds no link, and keeps every walk within the cap. */
  lemma RmKeepsPaths(d: Disk, p: Path, q: Path)
    ensures Canonical(d, q) ==> Canonical(Rm(d, p), q)
    ensures WithinCap(d, q) ==> WithinCap(Rm(d, p), q)
  {
    assert Below(Rm(d, p), q) <= Below(d, q);
    SubsetSize(Below(Rm(d, p), q), Below(d, q));
    forall k | 0 <= k <= |q| && IsLinkAt(Rm(d, p), q[..k])
      ensures IsLinkAt(d, q[..k])
    {
    }
  }
}
