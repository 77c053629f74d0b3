/** Sums of sizes over finite sets of paths. */
module Sums {
  import opened Paths

  ghost function Sum(f: Path -> nat, s: set<Path>): nat {
    if s == {} then 0
    else
      var x :| x in s;
      f(x) + Sum(f, s - {x})
  }

  lemma {:induction false} SumTake(f: Path -> nat, s: set<Path>, x: Path)
    requires x in s
    ensures Sum(f, s) == f(x) + Sum(f, s - {x})
    decreases |s|
  {
    var y :| y in s && Sum(f, s) == f(y) + Sum(f, s - {y});
    if y != x {
      SumTake(f, s - {y}, x);
      SumTake(f, s - {x}, y);
      assert s - {y} - {x} == s - {x} - {y};
    }
  }

  lemma SumAdd(f: Path -> nat, s: set<Path>, x: Path)
    requires x !in s
    ensures Sum(f, s + {x}) == Sum(f, s) + f(x)
  {
    SumTake(f, s + {x}, x);
    assert s + {x} - {x} == s;
  }

  lemma {:induction false} SumUnion(f: Path -> nat, a: set<Path>, b: set<Path>)
    requires a !! b
    ensures Sum(f, a + b) == Sum(f, a) + Sum(f, b)
    decreases |a|
  {
    if a == {} {
      assert a + b == b;
    } else {
      var x :| x in a;
      SumTake(f, a, x);
      SumTake(f, a + b, x);
      assert a + b - {x} == (a - {x}) + b;
      SumUnion(f, a - {x}, b);
    }
  }

  lemma SumSplit(f: Path -> nat, whole: set<Path>, part: set<Path>)
    requires part <= whole
    ensures Sum(f, whole) == Sum(f, part) + Sum(f, whole - part)
  {
    SumUnion(f, part, whole - part);
    assert part + (whole - part) == whole;
  }

  lemma {:induction false} SumSame(f: Path -> nat, g: Path -> nat, s: set<Path>)
    requires forall x :: x in s ==> f(x) == g(x)
    ensures Sum(f, s) == Sum(g, s)
    decreases |s|
  {
    if s != {} {
      var x :| x in s;
      SumTake(f, s, x);
      SumTake(g, s, x);
      SumSame(f, g, s - {x});
    }
  }
}
