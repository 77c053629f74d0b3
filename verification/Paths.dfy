/**
 Absolute paths, and the containment rule that guards every deletion: a test
 on strings ("starts with the root and a slash") that must mean a proper
 prefix of path segments.
 */
module Paths {
  import opened Text

  /** A normalized absolute path as its segments; the empty sequence is "/". */
  type Path = seq<string>

  predicate IsName(s: string) {
    s != [] && '/' !in s
  }

  predicate IsPath(p: Path) {
    forall s :: s in p ==> IsName(s)
  }

  /** The text of a normalized absolute path. */
  function Render(p: Path): string {
    if p == [] then "/" else RenderSegments(p)
  }

  function RenderSegments(p: Path): string {
    if p == [] then "" else "/" + p[0] + RenderSegments(p[1..])
  }

  /** p lies properly below root. */
  predicate Under(root: Path, p: Path) {
    |root| < |p| && p[..|root|] == root
  }

  predicate AtOrUnder(root: Path, p: Path) {
    |root| <= |p| && p[..|root|] == root
  }

  /** The string test of the program. */
  predicate StartsBelow(root: Path, p: Path) {
    Render(root) + "/" <= Render(p)
  }

  //// The string test is the segment test.

  lemma SameFirstSegment(a: string, b: string, x: string, y: string)
    requires '/' !in a && '/' !in b
    requires x != [] && x[0] == '/' && (y == [] || y[0] == '/')
    requires a + x <= b + y
    ensures a == b && x <= y
  {
    NoSlash(a);
    NoSlash(b);
    var n := if |a| < |b| then |a| else |b|;
    assert (a + x)[n] == (b + y)[n];
    AfterPrefix(a, x);
    AfterPrefix(b, y);
  }

  lemma NoSlash(s: string)
    requires '/' !in s
    ensures forall n :: 0 <= n < |s| ==> s[n] != '/'
  {
  }

  lemma RenderStart(p: Path)
    ensures RenderSegments(p) == [] || RenderSegments(p)[0] == '/'
  {
  }

  lemma {:induction false} SegmentsBelow(root: Path, p: Path)
    requires IsPath(root) && IsPath(p)
    ensures RenderSegments(root) + "/" <= RenderSegments(p) <==> Under(root, p)
    decreases |root|
  {
    if root == [] {
      assert RenderSegments(root) + "/" == "/";
      if p != [] {
        assert "/" <= RenderSegments(p);
      }
    } else if p == [] {
      assert |RenderSegments(root) + "/"| > 0;
    } else {
      hide RenderSegments, Under;
      SegmentsBelow(root[1..], p[1..]) by {
        assert forall s :: s in root[1..] ==> s in root;
        assert forall s :: s in p[1..] ==> s in p;
      }
      FirstSegments(root, p);
    }
  }

  /** One step of the comparison: equal first segments, then the rest. */
  lemma FirstSegments(root: Path, p: Path)
    requires IsPath(root) && IsPath(p) && root != [] && p != []
    requires RenderSegments(root[1..]) + "/" <= RenderSegments(p[1..]) <==> Under(root[1..], p[1..])
    ensures RenderSegments(root) + "/" <= RenderSegments(p) <==> Under(root, p)
  {
    var x, y := RenderSegments(root[1..]) + "/", RenderSegments(p[1..]);
    RenderStart(root[1..]);
    RenderStart(p[1..]);
    assert root[0] in root && p[0] in p;
    Assoc("/" + root[0], RenderSegments(root[1..]), "/");
    Assoc("/", root[0], x);
    Assoc("/", p[0], y);
    hide RenderSegments;
    PrefixTail("/", root[0] + x, p[0] + y);
    if root[0] + x <= p[0] + y {
      SameFirstSegment(root[0], p[0], x, y);
    }
    if root[0] == p[0] {
      PrefixTail(root[0], x, y);
    }
    UnderStep(root, p);
  }

  lemma UnderStep(root: Path, p: Path)
    requires root != [] && p != []
    ensures Under(root, p) <==> root[0] == p[0] && Under(root[1..], p[1..])
  {
    if |root| < |p| {
      assert p[..|root|] == [p[0]] + p[1..][..|root| - 1];
      assert root == [root[0]] + root[1..];
      if Under(root, p) {
        assert p[1..][..|root| - 1] == root[1..];
      }
    }
  }

  lemma PrefixTail(a: string, x: string, y: string)
    ensures a + x <= a + y <==> x <= y
  {
    if a + x <= a + y {
      assert (a + x)[|a|..] == x && (a + y)[|a|..] == y;
    }
  }

  /**
   The string test holds exactly for proper segment prefixes, except under the
   root directory itself, where it never holds ("/" followed by "/").
   */
  lemma StartsBelowIsUnder(root: Path, p: Path)
    requires IsPath(root) && IsPath(p)
    ensures StartsBelow(root, p) <==> root != [] && Under(root, p)
  {
    if root == [] {
      if p != [] {
        assert p[0] in p;
        assert Render(p)[1] == p[0][0];
        assert p[0][0] in p[0];
        NotPrefix("//", Render(p), 1);
      }
      assert Render(root) + "/" == "//";
    } else {
      SegmentsBelow(root, p);
    }
  }

  //// Containment with symbolic links resolved.

  type RealPath = Path -> Option<Path>

  /** `isContained`: the string test on the paths as given and again on the real paths. */
  predicate IsContained(resolve: RealPath, root: Path, target: Path) {
    && StartsBelow(root, target)
    && resolve(root).Some? && resolve(target).Some?
    && StartsBelow(resolve(root).value, resolve(target).value)
  }

  /** A target is removable only if it lies below the root, as named and as resolved. */
  lemma ContainedIsBelow(resolve: RealPath, root: Path, target: Path)
    requires IsPath(root) && IsPath(target)
    requires forall p :: resolve(p).Some? ==> IsPath(resolve(p).value)
    ensures IsContained(resolve, root, target) <==>
            && root != [] && Under(root, target)
            && resolve(root).Some? && resolve(root).value != []
            && resolve(target).Some? && Under(resolve(root).value, resolve(target).value)
  {
    StartsBelowIsUnder(root, target);
    if resolve(root).Some? && resolve(target).Some? {
      StartsBelowIsUnder(resolve(root).value, resolve(target).value);
    }
  }
}
