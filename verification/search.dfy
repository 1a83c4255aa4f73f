/**
  Depth-first enumeration of a puzzle's solutions in the order the program
  asks its solver for: the variables of the row-major flattened matrix are
  bound first to last (the first unbound one next) and each takes its
  values smallest first. A branch stops as soon as its bound prefix breaks a
  posted constraint.
 */
module Search {
  import opened Puzzle
  import opened Constraints

  /** A partial grid that breaks no posted constraint as far as it is bound. */
  predicate Consistent(p: Puzzle, a: seq<int>)
    requires Valid(p)
  {
    AllHold(Post(p), a)
  }

  /** `a` is a prefix of `g`. */
  predicate Extends(g: seq<int>, a: seq<int>) {
    |a| <= |g| && g[..|a|] == a
  }

  /** `g` is a complete grid that continues `a` and meets every posted constraint. */
  predicate Completes(p: Puzzle, a: seq<int>, g: seq<int>)
    requires Valid(p)
  {
    |g| == Size(p) && Extends(g, a) && Consistent(p, g)
  }

  /** All solutions that continue the partial grid `a`, in search order. */
  function Extend(p: Puzzle, a: seq<int>): seq<seq<int>>
    requires Valid(p) && |a| <= Size(p)
    decreases Size(p) - |a|, 11
  {
    if !Consistent(p, a) then []
    else if |a| == Size(p) then [a]
    else Branch(p, a, 0)
  }

  /** The solutions in which the first unbound variable takes a value from `v` up to 9. */
  function Branch(p: Puzzle, a: seq<int>, v: nat): seq<seq<int>>
    requires Valid(p) && |a| < Size(p) && v <= 10
    decreases Size(p) - |a|, 10 - v
  {
    if v == 10 then [] else Extend(p, a + [v]) + Branch(p, a, v + 1)
  }

  /** Every solution of the puzzle, in the order the search produces them. */
  function Solutions(p: Puzzle): seq<seq<int>>
    requires Valid(p)
  {
    Extend(p, [])
  }

  lemma {:induction false} ExtendExact(p: Puzzle, a: seq<int>, g: seq<int>)
    requires Valid(p) && |a| <= Size(p)
    ensures g in Extend(p, a) <==> Completes(p, a, g)
    decreases Size(p) - |a|, 11
  {
    if !Consistent(p, a) {
      if Completes(p, a, g) {
        AllHoldPrefix(Post(p), g, |a|);
      }
    } else if |a| == Size(p) {
      if Completes(p, a, g) {
        assert g == g[..|a|];
      }
    } else {
      BranchExact(p, a, 0, g);
      if Completes(p, a, g) {
        ConsistentDigit(p, g, |a|);
      }
    }
  }

  lemma {:induction false} BranchExact(p: Puzzle, a: seq<int>, v: nat, g: seq<int>)
    requires Valid(p) && |a| < Size(p) && v <= 10
    ensures g in Branch(p, a, v) <==> Completes(p, a, g) && g[|a|] >= v
    decreases Size(p) - |a|, 10 - v
  {
    if v == 10 {
      if Completes(p, a, g) {
        ConsistentDigit(p, g, |a|);
      }
    } else {
      ExtendExact(p, a + [v], g);
      BranchExact(p, a, v + 1, g);
      if |g| == Size(p) {
        assert g[..|a| + 1] == g[..|a|] + [g[|a|]];
      }
    }
  }

  /** `x` comes before `y` in lexicographic order. */
  predicate LexLess(x: seq<int>, y: seq<int>) {
    exists k :: 0 <= k < |x| && k < |y| && x[..k] == y[..k] && x[k] < y[k]
  }

  predicate StrictlyIncreasing(gs: seq<seq<int>>) {
    forall i, j :: 0 <= i < j < |gs| ==> LexLess(gs[i], gs[j])
  }

  lemma ConcatIncreasing(xs: seq<seq<int>>, ys: seq<seq<int>>)
    requires StrictlyIncreasing(xs) && StrictlyIncreasing(ys)
    requires forall x, y :: x in xs && y in ys ==> LexLess(x, y)
    ensures StrictlyIncreasing(xs + ys)
  {
    var zs := xs + ys;
    forall i, j | 0 <= i < j < |zs|
      ensures LexLess(zs[i], zs[j])
    {
      if j < |xs| {
        assert zs[i] == xs[i] && zs[j] == xs[j];
      } else if i >= |xs| {
        assert zs[i] == ys[i - |xs|] && zs[j] == ys[j - |xs|];
      } else {
        assert zs[i] in xs && zs[j] in ys;
      }
    }
  }

  lemma {:induction false} ExtendIncreasing(p: Puzzle, a: seq<int>)
    requires Valid(p) && |a| <= Size(p)
    ensures StrictlyIncreasing(Extend(p, a))
    decreases Size(p) - |a|, 11
  {
    if Consistent(p, a) && |a| < Size(p) {
      BranchIncreasing(p, a, 0);
    }
  }

  lemma {:induction false} BranchIncreasing(p: Puzzle, a: seq<int>, v: nat)
    requires Valid(p) && |a| < Size(p) && v <= 10
    ensures StrictlyIncreasing(Branch(p, a, v))
    decreases Size(p) - |a|, 10 - v
  {
    if v < 10 {
      var xs := Extend(p, a + [v]);
      var ys := Branch(p, a, v + 1);
      ExtendIncreasing(p, a + [v]);
      BranchIncreasing(p, a, v + 1);
      forall x, y | x in xs && y in ys
        ensures LexLess(x, y)
      {
        ExtendExact(p, a + [v], x);
        BranchExact(p, a, v + 1, y);
        var k := |a|;
        assert x[..k] == x[..k + 1][..k] == a;
        assert x[k] == x[..k + 1][k] == v;
        assert x[..k] == y[..k] && x[k] < y[k];
      }
      ConcatIncreasing(xs, ys);
    }
  }

  /** The search emits exactly the grids that satisfy the puzzle. */
  lemma SolutionsExact(p: Puzzle, g: seq<int>)
    requires Valid(p)
    ensures g in Solutions(p) <==> Satisfies(p, g)
  {
    ExtendExact(p, [], g);
    if |g| == Size(p) {
      PostMeansSatisfies(p, g);
    }
  }

  /** The search emits its solutions in strictly increasing lexicographic order, hence no grid twice. */
  lemma SolutionsIncreasing(p: Puzzle)
    requires Valid(p)
    ensures StrictlyIncreasing(Solutions(p))
    ensures forall i, j :: 0 <= i < j < |Solutions(p)| ==> Solutions(p)[i] != Solutions(p)[j]
  {
    ExtendIncreasing(p, []);
    var gs := Solutions(p);
    forall i, j | 0 <= i < j < |gs|
      ensures gs[i] != gs[j]
    {
      assert LexLess(gs[i], gs[j]);
    }
  }

  /** The first solution emitted is the lexicographically least solution. */
  lemma FirstSolutionIsLeast(p: Puzzle, g: seq<int>)
    requires Valid(p) && |Solutions(p)| > 0 && Satisfies(p, g)
    ensures g == Solutions(p)[0] || LexLess(Solutions(p)[0], g)
  {
    SolutionsExact(p, g);
    SolutionsIncreasing(p);
  }
}
