/**
 The bounded directory walk behind every size the program reports: an explicit
 stack, a cap on visited entries, and links never followed.

 The file system is whatever `readdir` and `lstat` answer, so a listing that
 goes round in circles is covered: the walk still ends.
 */
module Walk {
  import opened Text
  import opened Paths
  import opened Sums

  const MAX_WALK_ENTRIES: nat := 100_000

  datatype Stat = IsDir | IsFile(size: nat) | IsLink | IsOther

  /** None stands for a call that throws. */
  datatype FileSystem = FileSystem(readdir: Path -> Option<seq<string>>, lstat: Path -> Option<Stat>)

  function FileBytes(fs: FileSystem, p: Path): nat {
    match fs.lstat(p)
    case Some(IsFile(size)) => size
    case _ => 0
  }

  //// The walk as a function of its loop state.

  datatype Progress = Progress(stack: seq<Path>, visited: nat, total: nat, capped: bool)

  /** The inner loop over the names of one directory, from index i on. */
  function VisitNames(fs: FileSystem, current: Path, names: seq<string>, i: nat, s: Progress): (t: Progress)
    requires i <= |names| && s.visited <= MAX_WALK_ENTRIES
    ensures s.visited <= t.visited <= MAX_WALK_ENTRIES
    ensures t.visited == s.visited ==> t.capped || t.stack == s.stack
    decreases |names| - i
  {
    if i == |names| then
      s.(capped := false)
    else if s.visited >= MAX_WALK_ENTRIES then
      s.(capped := true)
    else
      VisitNames(fs, current, names, i + 1, VisitOne(fs, current + [names[i]], s))
  }

  function VisitOne(fs: FileSystem, full: Path, s: Progress): (t: Progress)
    ensures t.visited == s.visited + 1
  {
    var t := s.(visited := s.visited + 1);
    match fs.lstat(full)
    case Some(IsDir) => t.(stack := s.stack + [full])
    case Some(IsFile(size)) => t.(total := s.total + size)
    case _ => t
  }

  /** The outer loop over the stack. */
  function WalkStack(fs: FileSystem, s: Progress): nat
    requires s.visited <= MAX_WALK_ENTRIES
    decreases MAX_WALK_ENTRIES - s.visited, |s.stack|
  {
    if s.stack == [] then
      s.total
    else
      var current, rest := s.stack[|s.stack| - 1], s.(stack := s.stack[..|s.stack| - 1]);
      match fs.readdir(current)
      case None => WalkStack(fs, rest.(total := s.total + FileBytes(fs, current)))
      case Some(names) =>
        var t := VisitNames(fs, current, names, 0, rest);
        if t.capped then t.total else WalkStack(fs, t)
  }

  function DirectoryBytes(fs: FileSystem, root: Path): nat {
    WalkStack(fs, Progress([root], 0, 0, false))
  }

  /** The program's loops compute that function, and end on every listing. */
  method ComputeDirectoryBytes(fs: FileSystem, root: Path) returns (total: nat)
    ensures total == DirectoryBytes(fs, root)
  {
    total := 0;
    var visited: nat := 0;
    var stack := [root];
    while |stack| > 0
      invariant visited <= MAX_WALK_ENTRIES
      invariant WalkStack(fs, Progress(stack, visited, total, false)) == DirectoryBytes(fs, root)
      decreases MAX_WALK_ENTRIES - visited, |stack|
    {
      var current := stack[|stack| - 1];
      ghost var before := Progress(stack, visited, total, false);
      stack := stack[..|stack| - 1];
      var listing := fs.readdir(current);
      if listing.None? {
        total := total + FileBytes(fs, current);
        continue;
      }
      var names := listing.value;
      ghost var start := Progress(stack, visited, total, false);
      ghost var t := VisitNames(fs, current, names, 0, start);
      var i := 0;
      while i < |names|
        invariant 0 <= i <= |names| && visited <= MAX_WALK_ENTRIES
        invariant VisitNames(fs, current, names, i, Progress(stack, visited, total, false)) == t
      {
        if visited >= MAX_WALK_ENTRIES {
          return;
        }
        visited := visited + 1;
        var full := current + [names[i]];
        i := i + 1;
        var stat := fs.lstat(full);
        if stat.None? || stat.value.IsLink? {
          continue;
        }
        if stat.value.IsDir? {
          stack := stack + [full];
        } else if stat.value.IsFile? {
          total := total + stat.value.size;
        }
      }
    }
  }

  //// What the walk is meant to compute.

  predicate Distinct(names: seq<string>) {
    forall i, j :: 0 <= i < j < |names| ==> names[i] != names[j]
  }

  predicate Listed(fs: FileSystem, d: Path, name: string) {
    fs.readdir(d).Some? && name in fs.readdir(d).value
  }

  /** Directories whose names the walk reads. */
  predicate Expanded(fs: FileSystem, root: Path, tree: set<Path>, d: Path) {
    d == root || (d in tree && fs.lstat(d) == Some(IsDir))
  }

  function Parent(p: Path): Path {
    if p == [] then [] else p[..|p| - 1]
  }

  function Last(p: Path): string {
    if p == [] then [] else p[|p| - 1]
  }

  /** p lies below root, in a directory the walk reads and that lists it. */
  predicate Entered(fs: FileSystem, root: Path, tree: set<Path>, p: Path) {
    Under(root, p) && Expanded(fs, root, tree, Parent(p)) && Listed(fs, Parent(p), Last(p))
  }

  ghost predicate OnlyListed(fs: FileSystem, root: Path, tree: set<Path>) {
    forall p {:trigger Entered(fs, root, tree, p)} :: p in tree ==> Entered(fs, root, tree, p)
  }

  ghost predicate ListsNames(fs: FileSystem, root: Path, tree: set<Path>) {
    forall d :: Expanded(fs, root, tree, d) && fs.readdir(d).Some? ==> Distinct(fs.readdir(d).value)
  }

  ghost predicate AllListed(fs: FileSystem, root: Path, tree: set<Path>) {
    forall d, name :: Expanded(fs, root, tree, d) && Listed(fs, d, name) ==> d + [name] in tree
  }

  /** `tree` is the finite set of everything listed below root, links not followed. */
  ghost predicate Covers(fs: FileSystem, root: Path, tree: set<Path>) {
    OnlyListed(fs, root, tree) && ListsNames(fs, root, tree) && AllListed(fs, root, tree)
  }

  /** Every entry lies below the root, in a directory that lists it. */
  lemma EntryFacts(fs: FileSystem, root: Path, tree: set<Path>, p: Path)
    requires Covers(fs, root, tree) && p in tree
    ensures Under(root, p) && p != root && p == Parent(p) + [Last(p)] && |Parent(p)| < |p|
    ensures Expanded(fs, root, tree, Parent(p)) && Listed(fs, Parent(p), Last(p))
  {
    hide AllListed, ListsNames, Expanded, Listed;
    assert Entered(fs, root, tree, p);
  }

  lemma ChildFacts(fs: FileSystem, root: Path, tree: set<Path>, d: Path)
    requires Covers(fs, root, tree) && Expanded(fs, root, tree, d) && fs.readdir(d).Some?
    ensures Distinct(fs.readdir(d).value)
    ensures forall name :: name in fs.readdir(d).value ==> d + [name] in tree && Listed(fs, d, name)
  {
    forall name | name in fs.readdir(d).value
      ensures d + [name] in tree && Listed(fs, d, name)
    {
      assert Listed(fs, d, name);
    }
  }

  ghost function Sizes(fs: FileSystem): Path -> nat {
    (p: Path) => FileBytes(fs, p)
  }

  //// The invariant of the walk.

  /** `seen` are the entries counted so far, each of them after its directory. */
  ghost predicate Counted(fs: FileSystem, root: Path, tree: set<Path>, seen: set<Path>, s: Progress) {
    && seen <= tree && |seen| == s.visited && s.total == Sum(Sizes(fs), seen)
    && (forall p :: p in seen ==> Parent(p) == root || Parent(p) in seen)
  }

  /** The stack holds distinct counted directories none of whose entries has been counted. */
  ghost predicate StackOk(fs: FileSystem, root: Path, tree: set<Path>, seen: set<Path>, stack: seq<Path>) {
    && (forall i, j :: 0 <= i < j < |stack| ==> stack[i] != stack[j])
    && (forall d :: d in stack ==> Expanded(fs, root, tree, d) && (d == root || d in seen))
    && (forall p :: p in seen ==> Parent(p) !in stack)
  }

  /** Where an entry not yet counted will come from. */
  predicate Owed(tree: set<Path>, seen: set<Path>, stack: seq<Path>, current: Path, later: seq<string>, p: Path) {
    Parent(p) in stack || (Parent(p) in tree && Parent(p) !in seen) || (Parent(p) == current && Last(p) in later)
  }

  ghost predicate NothingLost(tree: set<Path>, seen: set<Path>, stack: seq<Path>, current: Path, later: seq<string>) {
    forall p :: p in tree && p !in seen ==> Owed(tree, seen, stack, current, later, p)
  }

  /** The directory being read is off the stack, and its later names have not been counted. */
  ghost predicate Reading(fs: FileSystem, root: Path, tree: set<Path>, seen: set<Path>, stack: seq<Path>,
                          current: Path, later: seq<string>) {
    && Expanded(fs, root, tree, current) && current !in stack && (current == root || current in seen)
    && Distinct(later)
    && (forall name :: name in later ==> Listed(fs, current, name) && current + [name] !in seen)
  }

  lemma ChildOf(d: Path, name: string)
    ensures Parent(d + [name]) == d && Last(d + [name]) == name
  {
  }

  /** The next name is a new entry of the tree. */
  lemma NextIsNew(fs: FileSystem, root: Path, tree: set<Path>, seen: set<Path>, stack: seq<Path>, current: Path,
                  later: seq<string>)
    requires Covers(fs, root, tree) && later != [] && seen <= tree
    requires Reading(fs, root, tree, seen, stack, current, later)
    ensures var full := current + [later[0]];
            full in tree && full !in seen && full != root && Parent(full) == current
  {
    ChildOf(current, later[0]);
    assert later[0] in later && Listed(fs, current, later[0]);
    EntryFacts(fs, root, tree, current + [later[0]]);
  }

  lemma CountedGrows(fs: FileSystem, root: Path, tree: set<Path>, seen: set<Path>, s: Progress, full: Path)
    requires Counted(fs, root, tree, seen, s)
    requires full in tree && full !in seen && (Parent(full) == root || Parent(full) in seen)
    ensures Counted(fs, root, tree, seen + {full}, VisitOne(fs, full, s))
  {
    SumAdd(Sizes(fs), seen, full);
  }

  lemma StackGrows(fs: FileSystem, root: Path, tree: set<Path>, seen: set<Path>, s: Progress, current: Path, full: Path)
    requires Counted(fs, root, tree, seen, s) && StackOk(fs, root, tree, seen, s.stack)
    requires full in tree && full !in seen && full != root && Parent(full) == current && current !in s.stack
    requires current != full
    ensures StackOk(fs, root, tree, seen + {full}, VisitOne(fs, full, s).stack)
    ensures current !in VisitOne(fs, full, s).stack
  {
    hide Sum, Sizes, FileBytes;
  }

  lemma OwedGrows(fs: FileSystem, root: Path, tree: set<Path>, seen: set<Path>, s: Progress, current: Path,
                  later: seq<string>, p: Path)
    requires Covers(fs, root, tree) && later != [] && p in tree && p !in seen
    requires Owed(tree, seen, s.stack, current, later, p)
    requires var full := current + [later[0]]; p != full && full != root && full in tree
    ensures var full := current + [later[0]];
            Owed(tree, seen + {full}, VisitOne(fs, full, s).stack, current, later[1..], p)
  {
    hide FileBytes, Covers, Parent, Last, Under;
    var full := current + [later[0]];
    EntryFacts(fs, root, tree, p);
    assert later == [later[0]] + later[1..];
  }

  /** Everything the walk keeps between two steps. */
  ghost predicate Midway(fs: FileSystem, root: Path, tree: set<Path>, seen: set<Path>, s: Progress, current: Path,
                         later: seq<string>) {
    && Counted(fs, root, tree, seen, s) && StackOk(fs, root, tree, seen, s.stack)
    && NothingLost(tree, seen, s.stack, current, later)
  }

  lemma VisitKeeps(fs: FileSystem, root: Path, tree: set<Path>, seen: set<Path>, s: Progress, current: Path,
                   later: seq<string>)
    requires Covers(fs, root, tree) && later != []
    requires Midway(fs, root, tree, seen, s, current, later) && Reading(fs, root, tree, seen, s.stack, current, later)
    ensures var full := current + [later[0]];
            && full in tree && full !in seen
            && Midway(fs, root, tree, seen + {full}, VisitOne(fs, full, s), current, later[1..])
            && Reading(fs, root, tree, seen + {full}, VisitOne(fs, full, s).stack, current, later[1..])
  {
    hide Counted, StackOk, Owed, VisitOne, Covers;
    var full := current + [later[0]];
    assert seen <= tree by {
      CountedInTree(fs, root, tree, seen, s);
    }
    NextIsNew(fs, root, tree, seen, s.stack, current, later);
    CountedGrows(fs, root, tree, seen, s, full);
    StackGrows(fs, root, tree, seen, s, current, full);
    var t := VisitOne(fs, full, s);
    forall p | p in tree && p !in seen + {full}
      ensures Owed(tree, seen + {full}, t.stack, current, later[1..], p)
    {
      OwedGrows(fs, root, tree, seen, s, current, later, p);
    }
    forall n | n in later[1..]
      ensures Listed(fs, current, n) && current + [n] !in seen + {full}
    {
      assert n in later && n != later[0];
      ChildOf(current, n);
      ChildOf(current, later[0]);
    }
  }

  lemma CountedInTree(fs: FileSystem, root: Path, tree: set<Path>, seen: set<Path>, s: Progress)
    requires Counted(fs, root, tree, seen, s)
    ensures seen <= tree && |seen| == s.visited && s.total == Sum(Sizes(fs), seen)
  {
  }

  //// One directory, then the whole stack.

  lemma {:induction false} NamesKeep(fs: FileSystem, root: Path, tree: set<Path>, seen: set<Path>, s: Progress,
                                     current: Path, names: seq<string>, i: nat)
    returns (seen': set<Path>)
    requires Covers(fs, root, tree) && i <= |names| && s.visited <= MAX_WALK_ENTRIES
    requires Midway(fs, root, tree, seen, s, current, names[i..])
    requires Reading(fs, root, tree, seen, s.stack, current, names[i..])
    ensures var t := VisitNames(fs, current, names, i, s);
            && Counted(fs, root, tree, seen', t)
            && (t.capped ==> |seen'| == MAX_WALK_ENTRIES && seen' != tree)
            && (!t.capped ==> Midway(fs, root, tree, seen', t, current, []))
    decreases |names| - i
  {
    hide Covers, Counted, StackOk, NothingLost, VisitOne, Reading;
    if i == |names| {
      seen' := seen;
      assert names[i..] == [];
      SameCount(fs, root, tree, seen, s, s.(capped := false));
    } else {
      VisitKeeps(fs, root, tree, seen, s, current, names[i..]);
      var full := current + [names[i]];
      assert names[i..][1..] == names[i + 1..] && names[i..][0] == names[i];
      if s.visited >= MAX_WALK_ENTRIES {
        seen' := seen;
        SameCount(fs, root, tree, seen, s, s.(capped := true));
        CountedInTree(fs, root, tree, seen, s);
      } else {
        seen' := NamesKeep(fs, root, tree, seen + {full}, VisitOne(fs, full, s), current, names, i + 1);
      }
    }
  }

  lemma SameCount(fs: FileSystem, root: Path, tree: set<Path>, seen: set<Path>, s: Progress, t: Progress)
    requires Counted(fs, root, tree, seen, s) && t.visited == s.visited && t.total == s.total
    ensures Counted(fs, root, tree, seen, t)
  {
  }

  /** What the stack holds besides its top, and what it says of the top. */
  lemma Popped(fs: FileSystem, root: Path, tree: set<Path>, seen: set<Path>, rest: seq<Path>, current: Path)
    requires StackOk(fs, root, tree, seen, rest + [current])
    ensures StackOk(fs, root, tree, seen, rest)
    ensures Expanded(fs, root, tree, current) && current !in rest && (current == root || current in seen)
    ensures forall name: string :: current + [name] !in seen
  {
    hide Expanded, Parent;
    var stack := rest + [current];
    assert current in stack && forall d :: d in rest ==> d in stack;
    forall i | 0 <= i < |rest|
      ensures stack[i] == rest[i] && rest[i] != current
    {
      assert stack[|rest|] == current;
    }
    forall name: string
      ensures current + [name] !in seen
    {
      assert Parent(current + [name]) == current by {
        ChildOf(current, name);
      }
    }
  }

  /** An entry owed because its directory was on the stack is now owed as one of the names read. */
  lemma OwedAfterPop(fs: FileSystem, root: Path, tree: set<Path>, seen: set<Path>, rest: seq<Path>, current: Path,
                     names: seq<string>, earlier: Path, p: Path)
    requires Covers(fs, root, tree) && p in tree && fs.readdir(current) == Some(names)
    requires Owed(tree, seen, rest + [current], earlier, [], p)
    ensures Owed(tree, seen, rest, current, names, p)
  {
    hide Covers, Parent, Last, Under, Expanded;
    EntryFacts(fs, root, tree, p);
  }

  /** Taking a directory off the stack to read it. */
  lemma StartReading(fs: FileSystem, root: Path, tree: set<Path>, seen: set<Path>, s: Progress, earlier: Path)
    requires Covers(fs, root, tree) && s.stack != [] && Midway(fs, root, tree, seen, s, earlier, [])
    requires fs.readdir(s.stack[|s.stack| - 1]).Some?
    ensures var current := s.stack[|s.stack| - 1];
            var rest := s.(stack := s.stack[..|s.stack| - 1]);
            var names := fs.readdir(current).value;
            Midway(fs, root, tree, seen, rest, current, names) &&
              Reading(fs, root, tree, seen, rest.stack, current, names)
  {
    hide Covers, Counted, StackOk, Owed, Expanded, Distinct, Listed;
    var n := |s.stack| - 1;
    var current, rest := s.stack[n], s.stack[..n];
    var names := fs.readdir(current).value;
    assert s.stack == rest + [current];
    SameCount(fs, root, tree, seen, s, s.(stack := rest));
    Popped(fs, root, tree, seen, rest, current);
    ChildFacts(fs, root, tree, current);
    forall p | p in tree && p !in seen
      ensures Owed(tree, seen, rest, current, names, p)
    {
      OwedAfterPop(fs, root, tree, seen, rest, current, names, earlier, p);
    }
  }

  /** A directory that cannot be read leaves nothing owed. */
  lemma SkipUnreadable(fs: FileSystem, root: Path, tree: set<Path>, seen: set<Path>, s: Progress, earlier: Path)
    requires Covers(fs, root, tree) && s.stack != [] && Midway(fs, root, tree, seen, s, earlier, [])
    requires fs.readdir(s.stack[|s.stack| - 1]).None? && s.stack[|s.stack| - 1] != root
    ensures Midway(fs, root, tree, seen,
                   s.(stack := s.stack[..|s.stack| - 1], total := s.total + FileBytes(fs, s.stack[|s.stack| - 1])),
                   earlier, [])
  {
    hide Covers, Counted, Parent, Last;
    var n := |s.stack| - 1;
    var current, rest := s.stack[n], s.stack[..n];
    assert s.stack == rest + [current];
    assert current in s.stack && Expanded(fs, root, tree, current);
    SameCount(fs, root, tree, seen, s, s.(stack := rest));
    forall p | p in tree && p !in seen
      ensures Owed(tree, seen, rest, earlier, [], p)
    {
      assert Owed(tree, seen, s.stack, earlier, [], p);
      EntryFacts(fs, root, tree, p);
    }
  }

  /**
   With an empty stack, everything has been counted: an uncounted entry would
   have an uncounted ancestor at the root.
   */
  lemma {:induction false} NothingLeft(fs: FileSystem, root: Path, tree: set<Path>, seen: set<Path>, current: Path,
                                       p: Path)
    requires Covers(fs, root, tree) && NothingLost(tree, seen, [], current, []) && p in tree
    ensures p in seen
    decreases |p|
  {
    hide Covers, Parent, Last;
    if p !in seen {
      assert Owed(tree, seen, [], current, [], p);
      EntryFacts(fs, root, tree, p);
      NothingLeft(fs, root, tree, seen, current, Parent(p));
    }
  }

  /** What a walk of a tree returns: the sum over some set of counted entries, all of them if the cap allows. */
  ghost predicate Counts(fs: FileSystem, tree: set<Path>, total: nat) {
    exists seen :: seen <= tree && total == Sum(Sizes(fs), seen) &&
                   (seen == tree || |seen| == 100_000 < |tree|)
  }

  lemma {:induction false} StackKeeps(fs: FileSystem, root: Path, tree: set<Path>, seen: set<Path>, s: Progress,
                                      current: Path)
    requires Covers(fs, root, tree) && s.visited <= MAX_WALK_ENTRIES && fs.readdir(root).Some?
    requires Midway(fs, root, tree, seen, s, current, [])
    ensures Counts(fs, tree, WalkStack(fs, s))
    decreases MAX_WALK_ENTRIES - s.visited, |s.stack|
  {
    hide Covers, Counted, StackOk, NothingLost, VisitNames, Reading;
    if s.stack == [] {
      forall p | p in tree
        ensures p in seen
      {
        NothingLeft(fs, root, tree, seen, current, p);
      }
      CountedInTree(fs, root, tree, seen, s);
      assert seen == tree;
    } else {
      var d := s.stack[|s.stack| - 1];
      var rest := s.(stack := s.stack[..|s.stack| - 1]);
      match fs.readdir(d)
      case None =>
        SkipUnreadable(fs, root, tree, seen, s, current);
        StackKeeps(fs, root, tree, seen, rest.(total := s.total + FileBytes(fs, d)), current);
      case Some(names) =>
        StartReading(fs, root, tree, seen, s, current);
        assert names[0..] == names;
        var seen' := NamesKeep(fs, root, tree, seen, rest, d, names, 0);
        var t := VisitNames(fs, d, names, 0, rest);
        CountedInTree(fs, root, tree, seen', t);
        if t.capped {
          ProperSubsetIsSmaller(seen', tree);
        } else {
          StackKeeps(fs, root, tree, seen', t, d);
        }
    }
  }

  lemma ProperSubsetIsSmaller(a: set<Path>, b: set<Path>)
    requires a <= b && a != b
    ensures |a| < |b|
  {
    SubsetSize(a, b);
    assert b == a + (b - a);
    assert b - a != {};
  }

  lemma SubsetSize(a: set<Path>, b: set<Path>)
    requires a <= b
    ensures |b| == |a| + |b - a|
  {
    assert b == a + (b - a);
  }

  lemma ExpandedIsListed(fs: FileSystem, root: Path, tree: set<Path>, d: Path)
    ensures Expanded(fs, root, tree, root)
    ensures Expanded(fs, root, tree, d) ==> d == root || d in tree
  {
  }

  /** Before the first step nothing is counted, and the root is on the stack. */
  lemma WalkStarts(fs: FileSystem, root: Path, tree: set<Path>)
    requires Covers(fs, root, tree)
    ensures Midway(fs, root, tree, {}, Progress([root], 0, 0, false), root, [])
  {
    hide Covers, Expanded, Parent, Last, Listed;
    ExpandedIsListed(fs, root, tree, root);
    forall p | p in tree
      ensures Owed(tree, {}, [root], root, [], p)
    {
      EntryFacts(fs, root, tree, p);
      ExpandedIsListed(fs, root, tree, Parent(p));
    }
  }

  lemma WalkCounts(fs: FileSystem, root: Path, tree: set<Path>)
    requires Covers(fs, root, tree) && fs.readdir(root).Some?
    ensures Counts(fs, tree, DirectoryBytes(fs, root))
  {
    hide Covers, Midway, Counts, WalkStack;
    WalkStarts(fs, root, tree);
    StackKeeps(fs, root, tree, {}, Progress([root], 0, 0, false), root);
  }

  /** A walk within the cap is the exact sum of the regular files; links count nothing. */
  lemma WalkIsSum(fs: FileSystem, root: Path, tree: set<Path>)
    requires Covers(fs, root, tree) && fs.readdir(root).Some? && |tree| <= 100_000
    ensures DirectoryBytes(fs, root) == Sum(Sizes(fs), tree)
  {
    hide Covers, DirectoryBytes, Sum, Sizes;
    WalkCounts(fs, root, tree);
  }

  /** A walk over the cap reports a lower bound. */
  lemma WalkIsLowerBound(fs: FileSystem, root: Path, tree: set<Path>)
    requires Covers(fs, root, tree) && fs.readdir(root).Some?
    ensures DirectoryBytes(fs, root) <= Sum(Sizes(fs), tree)
  {
    hide Covers, DirectoryBytes, Sum, Sizes;
    WalkCounts(fs, root, tree);
    var seen :| seen <= tree && DirectoryBytes(fs, root) == Sum(Sizes(fs), seen);
    SumSplit(Sizes(fs), tree, seen);
  }

  /** A path that cannot be listed counts its own size, if it is a file. */
  lemma WalkOfFile(fs: FileSystem, root: Path)
    requires fs.readdir(root).None?
    ensures DirectoryBytes(fs, root) == FileBytes(fs, root)
  {
    var s := Progress([root], 0, 0, false);
    assert WalkStack(fs, s) == WalkStack(fs, s.(stack := [], total := FileBytes(fs, root)));
  }
}
