/** What removals and renames keep: the tree, resolved paths, the sum of bytes, and everything out of their way. */
module VolumeLaws {
  import opened Paths
  import opened Sums
  import opened Walk
  import opened Volume

  predicate Unchanged(d: Disk, e: Disk, q: Path) {
    (q in d <==> q in e) && (q in d ==> d[q] == e[q])
  }

  /** What is at and below q in e is what was at and below p in d. */
  ghost predicate SameTree(d: Disk, p: Path, e: Disk, q: Path) {
    forall rel: Path :: (p + rel in d <==> q + rel in e) && (p + rel in d ==> d[p + rel] == e[q + rel])
  }

  predicate Apart(p: Path, q: Path) {
    !AtOrUnder(p, q) && !AtOrUnder(q, p)
  }

  lemma SameTreeTrans(d: Disk, p: Path, e: Disk, q: Path, f: Disk, r: Path)
    requires SameTree(d, p, e, q) && SameTree(e, q, f, r)
    ensures SameTree(d, p, f, r)
  {
    forall rel: Path
      ensures (p + rel in d <==> r + rel in f) && (p + rel in d ==> d[p + rel] == f[r + rel])
    {
      assert q + rel in e <==> p + rel in d;
    }
  }

  lemma ApartBelow(p: Path, x: Path, rel: Path)
    requires Apart(p, x)
    ensures !AtOrUnder(x, p + rel)
  {
    if |x| <= |p| {
      assert (p + rel)[..|x|] == p[..|x|];
    } else if |x| <= |p + rel| {
      assert (p + rel)[..|x|][..|p|] == p;
    }
  }

  lemma SiblingsAreApart(root: Path, a: string, b: string)
    requires a != b
    ensures Apart(root + [a], root + [b])
  {
    assert (root + [b])[..|root| + 1] == root + [b] && (root + [a])[..|root| + 1] == root + [a];
    assert (root + [a])[|root|] == a && (root + [b])[|root|] == b;
  }

  lemma EntriesOfApartRoots(a: Path, b: Path, x: string, y: string)
    requires Apart(a, b)
    ensures Apart(a + [x], b + [y])
  {
    ApartBelow(a, b, [x]);
    ApartBelow(b, a, [y]);
    if |a| < |b + [y]| {
      assert (b + [y])[..|a| + 1][..|a|] == (b + [y])[..|a|];
    }
    if |b| < |a + [x]| {
      assert (a + [x])[..|b| + 1][..|b|] == (a + [x])[..|b|];
    }
  }

  //// Renaming.

  lemma MovedAt(d: Disk, from: Path, to: Path, q: Path)
    ensures AtOrUnder(to, q) ==>
              (q in Moved(d, from, to) <==> Source(from, to, q) in d) &&
              (q in Moved(d, from, to) ==> Moved(d, from, to)[q] == d[Source(from, to, q)])
    ensures !AtOrUnder(to, q) ==>
              (q in Moved(d, from, to) <==> q in d && !AtOrUnder(from, q)) &&
              (q in Moved(d, from, to) ==> Moved(d, from, to)[q] == d[q])
  {
    if AtOrUnder(to, q) {
      var r := Source(from, to, q);
      assert r[..|from|] == from && r[|from|..] == q[|to|..];
      assert to + r[|from|..] == q;
    }
  }

  lemma MovedTree(d: Disk, from: Path, to: Path)
    ensures SameTree(d, from, Moved(d, from, to), to)
  {
    hide Moved;
    forall rel: Path
      ensures from + rel in d <==> to + rel in Moved(d, from, to)
      ensures from + rel in d ==> d[from + rel] == Moved(d, from, to)[to + rel]
    {
      MovedAt(d, from, to, to + rel);
      assert (to + rel)[..|to|] == to && (to + rel)[|to|..] == rel;
    }
  }

  lemma MovedElsewhere(d: Disk, from: Path, to: Path, q: Path)
    requires Apart(q, from) && Apart(q, to)
    ensures SameTree(d, q, Moved(d, from, to), q)
  {
    hide Moved;
    forall rel: Path
      ensures Unchanged(d, Moved(d, from, to), q + rel)
    {
      ApartBelow(q, from, rel);
      ApartBelow(q, to, rel);
      MovedAt(d, from, to, q + rel);
    }
  }

  /** A rename within one directory keeps the tree. */
  lemma MovedKeepsTree(d: Disk, dir: Path, a: string, b: string)
    requires Tree(d) && dir + [a] in d && a != b
    ensures Tree(Moved(d, dir + [a], dir + [b]))
  {
    hide Moved, Tree;
    var from, to := dir + [a], dir + [b];
    var e := Moved(d, from, to);
    forall q | q in e
      ensures InDir(e, q)
    {
      MovedEntryInDir(d, dir, a, b, q);
    }
    MovedAt(d, from, to, []);
    TreeIs(d, []);
    TreeFrom(e);
  }

  lemma TreeIs(d: Disk, p: Path)
    requires Tree(d)
    ensures p in d ==> InDir(d, p)
    ensures [] in d ==> d[[]] == Dir
  {
  }

  lemma TreeFrom(d: Disk)
    requires forall p :: p in d ==> InDir(d, p)
    requires [] in d ==> d[[]] == Dir
    ensures Tree(d)
  {
  }

  lemma MovedEntryInDir(d: Disk, dir: Path, a: string, b: string, q: Path)
    requires Tree(d) && dir + [a] in d && a != b && q in Moved(d, dir + [a], dir + [b])
    ensures InDir(Moved(d, dir + [a], dir + [b]), q)
  {
    hide Moved, Tree;
    var from, to := dir + [a], dir + [b];
    MovedAt(d, from, to, q);
    MovedAt(d, from, to, Parent(q));
    TreeIs(d, from);
    ChildOf(dir, a);
    ChildOf(dir, b);
    SiblingsAreApart(dir, a, b);
    if q != [] {
      if AtOrUnder(to, q) {
        TreeIs(d, Source(from, to, q));
        if |q| == |to| {
          assert q == to;
          assert Source(from, to, q) == from;
        } else {
          assert Parent(q)[..|to|] == q[..|to|];
          assert Source(from, to, Parent(q)) == Parent(Source(from, to, q));
        }
      } else {
        TreeIs(d, q);
        ParentNotBelow(from, q);
        ParentNotBelow(to, q);
      }
    }
  }

  lemma ParentNotBelow(p: Path, q: Path)
    requires !AtOrUnder(p, q) && q != []
    ensures !AtOrUnder(p, Parent(q))
  {
    if |p| <= |Parent(q)| {
      assert q[..|p|] == Parent(q)[..|p|];
    }
  }

  lemma MovedKeepsCanonical(d: Disk, from: Path, to: Path, q: Path)
    requires !AtOrUnder(to, q) && Canonical(d, q)
    ensures Canonical(Moved(d, from, to), q)
  {
    hide Moved;
    forall k | 0 <= k <= |q|
      ensures !IsLinkAt(Moved(d, from, to), q[..k])
    {
      assert !IsLinkAt(d, q[..k]);
      MovedAt(d, from, to, q[..k]);
      if |to| <= k {
        assert q[..k][..|to|] == q[..|to|];
      }
    }
  }

  lemma MovedKeepsCap(d: Disk, from: Path, to: Path, q: Path)
    requires Apart(q, to) && WithinCap(d, q)
    ensures WithinCap(Moved(d, from, to), q)
  {
    hide Moved;
    var e := Moved(d, from, to);
    forall p | p in Below(e, q)
      ensures p in Below(d, q)
    {
      assert q + p[|q|..] == p;
      ApartBelow(q, to, p[|q|..]);
      MovedAt(d, from, to, p);
    }
    SubsetSize(Below(e, q), Below(d, q));
  }

  //// The bytes of a region: everything at and below one of two roots.

  predicate InRegion(a: Path, b: Path, q: Path) {
    AtOrUnder(a, q) || AtOrUnder(b, q)
  }

  function Region(d: Disk, a: Path, b: Path): set<Path> {
    set q | q in d && InRegion(a, b, q)
  }

  ghost function RegionBytes(d: Disk, a: Path, b: Path): nat {
    Sum(Size(d), Region(d, a, b))
  }

  lemma RegionClosed(a: Path, b: Path, p: Path, q: Path)
    requires InRegion(a, b, p) && AtOrUnder(p, q)
    ensures InRegion(a, b, q)
  {
    if AtOrUnder(a, p) {
      assert q[..|p|][..|a|] == q[..|a|];
    } else {
      assert q[..|p|][..|b|] == q[..|b|];
    }
  }

  /** A removal takes exactly the bytes at and below the removed entry. */
  lemma RmLedger(d: Disk, a: Path, b: Path, p: Path)
    requires InRegion(a, b, p)
    ensures RegionBytes(d, a, b) == RegionBytes(Rm(d, p), a, b) + Bytes(d, p)
  {
    hide Sum, InRegion, AtOrUnder;
    var e := Rm(d, p);
    forall q | q in AtOrBelow(d, p)
      ensures q in Region(d, a, b)
    {
      RegionClosed(a, b, p, q);
    }
    assert Region(e, a, b) == Region(d, a, b) - AtOrBelow(d, p);
    SumSplit(Size(d), Region(d, a, b), AtOrBelow(d, p));
    SumSame(Size(d), Size(e), Region(e, a, b));
  }

  /** Where the entry q at or below `from` is after the move. */
  function Shift(from: Path, to: Path, q: Path): Path
    requires AtOrUnder(from, q)
  {
    to + q[|from|..]
  }

  function Image(s: set<Path>, from: Path, to: Path): set<Path> {
    set q | q in s && AtOrUnder(from, q) :: Shift(from, to, q)
  }

  lemma ShiftInjective(from: Path, to: Path, p: Path, q: Path)
    requires AtOrUnder(from, p) && AtOrUnder(from, q) && Shift(from, to, p) == Shift(from, to, q)
    ensures p == q
  {
    assert p[|from|..] == Shift(from, to, p)[|to|..] == q[|from|..];
    assert p == from + p[|from|..] && q == from + q[|from|..];
  }

  lemma ImageStep(s: set<Path>, from: Path, to: Path, x: Path)
    requires x in s && AtOrUnder(from, x)
    ensures Image(s, from, to) == Image(s - {x}, from, to) + {Shift(from, to, x)}
    ensures Shift(from, to, x) !in Image(s - {x}, from, to)
  {
    hide Shift, AtOrUnder;
    forall q | q in s - {x} && AtOrUnder(from, q)
      ensures Shift(from, to, q) != Shift(from, to, x)
    {
      if Shift(from, to, q) == Shift(from, to, x) {
        ShiftInjective(from, to, q, x);
      }
    }
  }

  lemma {:induction false} ImageSize(s: set<Path>, from: Path, to: Path)
    requires forall q :: q in s ==> AtOrUnder(from, q)
    ensures |Image(s, from, to)| == |s|
    decreases |s|
  {
    hide Shift, AtOrUnder;
    if s == {} {
      assert Image(s, from, to) == {};
    } else {
      hide Image;
      var x :| x in s;
      ImageSize(s - {x}, from, to);
      ImageStep(s, from, to, x);
    }
  }

  lemma {:induction false} SumImage(f: Path -> nat, g: Path -> nat, s: set<Path>, from: Path, to: Path)
    requires forall q :: q in s ==> AtOrUnder(from, q) && g(Shift(from, to, q)) == f(q)
    ensures Sum(g, Image(s, from, to)) == Sum(f, s)
    decreases |s|
  {
    hide Shift, AtOrUnder;
    if s == {} {
      assert Image(s, from, to) == {};
    } else {
      hide Image;
      var x :| x in s;
      SumImage(f, g, s - {x}, from, to);
      SumTake(f, s, x);
      ImageStep(s, from, to, x);
      SumAdd(g, Image(s - {x}, from, to), Shift(from, to, x));
    }
  }

  /** A rename inside the region keeps every byte except those of the entry it replaces. */
  lemma MovedLedger(d: Disk, a: Path, b: Path, from: Path, to: Path)
    requires InRegion(a, b, from) && InRegion(a, b, to) && Apart(from, to)
    ensures RegionBytes(d, a, b) == RegionBytes(Moved(d, from, to), a, b) + Bytes(d, to)
  {
    hide Sum, Moved, InRegion;
    var e := Moved(d, from, to);
    var stay := Region(d, a, b) - AtOrBelow(d, from) - AtOrBelow(d, to);
    forall q
      ensures q in AtOrBelow(d, from) || q in AtOrBelow(d, to) ==> q in Region(d, a, b)
      ensures AtOrUnder(from, q) ==> !AtOrUnder(to, q)
      ensures AtOrUnder(to, q) ==> InRegion(a, b, q)
    {
      if AtOrUnder(from, q) {
        RegionClosed(a, b, from, q);
        assert from + q[|from|..] == q;
        ApartBelow(from, to, q[|from|..]);
      }
      if AtOrUnder(to, q) {
        RegionClosed(a, b, to, q);
      }
    }
    forall q
      ensures q in Region(e, a, b) && !AtOrUnder(to, q) <==> q in stay
      ensures q in stay ==> SizeAt(d, q) == SizeAt(e, q)
    {
      MovedAt(d, from, to, q);
    }
    MovedSum(d, from, to);
    SumSame(Size(d), Size(e), stay);
    assert Region(e, a, b) == stay + AtOrBelow(e, to);
    SumUnion(Size(e), stay, AtOrBelow(e, to));
    SumSplit(Size(d), Region(d, a, b), AtOrBelow(d, to));
    SumSplit(Size(d), Region(d, a, b) - AtOrBelow(d, to), AtOrBelow(d, from));
    assert Region(d, a, b) - AtOrBelow(d, to) - AtOrBelow(d, from) == stay;
  }

  /** The renamed entry has the same bytes in its new place. */
  lemma MovedSum(d: Disk, from: Path, to: Path)
    ensures Bytes(Moved(d, from, to), to) == Bytes(d, from)
  {
    hide Sum, Moved;
    var e, s := Moved(d, from, to), AtOrBelow(d, from);
    forall q | q in s
      ensures Shift(from, to, q) in AtOrBelow(e, to)
      ensures Size(e)(Shift(from, to, q)) == Size(d)(q)
    {
      MovedFrom(d, from, to, q);
    }
    forall q | q in AtOrBelow(e, to)
      ensures q in Image(s, from, to)
    {
      MovedAt(d, from, to, q);
      var r := Source(from, to, q);
      assert r[..|from|] == from && Shift(from, to, r) == q;
    }
    assert AtOrBelow(e, to) == Image(s, from, to);
    SumImage(Size(d), Size(e), s, from, to);
  }

  lemma MovedFrom(d: Disk, from: Path, to: Path, q: Path)
    requires q in d && AtOrUnder(from, q)
    ensures var r := Shift(from, to, q);
            AtOrUnder(to, r) && r in Moved(d, from, to) && Moved(d, from, to)[r] == d[q]
  {
    hide Moved;
    var r := Shift(from, to, q);
    MovedAt(d, from, to, r);
    assert r[..|to|] == to && r[|to|..] == q[|from|..];
    assert from + q[|from|..] == q;
  }

  /** What lay below the renamed entry lies below it still, and nothing else does. */
  lemma MovedCarriesCap(d: Disk, from: Path, to: Path)
    requires WithinCap(d, from)
    ensures WithinCap(Moved(d, from, to), to)
  {
    hide Moved;
    var e, s := Moved(d, from, to), Below(d, from);
    forall q | q in Below(e, to)
      ensures q in Image(s, from, to)
    {
      MovedAt(d, from, to, q);
      var r := Source(from, to, q);
      assert r[..|from|] == from && Shift(from, to, r) == q;
    }
    ImageSize(s, from, to);
    SubsetSize(Below(e, to), Image(s, from, to));
  }

  lemma MovedLeavesNothing(d: Disk, from: Path, to: Path)
    requires Apart(from, to)
    ensures Below(Moved(d, from, to), from) == {}
  {
    hide Moved;
    forall q | AtOrUnder(from, q)
      ensures q !in Moved(d, from, to)
    {
      assert from + q[|from|..] == q;
      ApartBelow(from, to, q[|from|..]);
      MovedAt(d, from, to, q);
    }
  }
}
