/**
  The constraints the program posts to the solver, one datatype value per
  `solver.Add`, over the variables of the row-major flattened matrix.
 */
module Constraints {
  import opened Segments
  import opened Puzzle

  datatype Constraint =
    | Between(v: nat, lo: int, hi: int)   // the domain every matrix variable is created with
    | EqualTo(v: nat, value: int)         // a blank fixed to a value
    | AtLeast(v: nat, bound: int)         // a segment cell bounded from below
    | SumIs(vars: seq<nat>, total: int)   // a segment's sum
    | AllDifferent(vars: seq<nat>)        // a segment's distinct digits

  /** The values of some variables, all of them assigned in `a`. */
  function VarValues(vars: seq<nat>, a: seq<int>): (xs: seq<int>)
    requires forall i :: 0 <= i < |vars| ==> vars[i] < |a|
    ensures |xs| == |vars|
  {
    seq(|vars|, i requires 0 <= i < |vars| => a[vars[i]])
  }

  /**
    The constraint, judged on a partial assignment `a` that binds exactly the
    variables below `|a|`: each part is checked once the variables it speaks of
    are bound. On a complete assignment this is the constraint itself.
   */
  predicate HoldsOn(c: Constraint, a: seq<int>) {
    match c
    case Between(v, lo, hi) => v < |a| ==> lo <= a[v] <= hi
    case EqualTo(v, x) => v < |a| ==> a[v] == x
    case AtLeast(v, b) => v < |a| ==> a[v] >= b
    case SumIs(vs, t) =>
      (forall i :: 0 <= i < |vs| ==> vs[i] < |a|) ==> Sum(VarValues(vs, a)) == t
    case AllDifferent(vs) =>
      forall i, j :: 0 <= i < j < |vs| && vs[i] < |a| && vs[j] < |a| ==> a[vs[i]] != a[vs[j]]
  }

  predicate AllHold(cs: seq<Constraint>, a: seq<int>) {
    forall i :: 0 <= i < |cs| ==> HoldsOn(cs[i], a)
  }

  /** Unbinding variables never breaks a constraint: what holds on `a` holds on its prefixes. */
  lemma HoldsOnPrefix(c: Constraint, a: seq<int>, k: nat)
    requires HoldsOn(c, a) && k <= |a|
    ensures HoldsOn(c, a[..k])
  {
    match c
    case SumIs(vs, t) =>
      if forall i :: 0 <= i < |vs| ==> vs[i] < k {
        assert VarValues(vs, a[..k]) == VarValues(vs, a);
      }
    case _ =>
  }

  lemma AllHoldPrefix(cs: seq<Constraint>, a: seq<int>, k: nat)
    requires AllHold(cs, a) && k <= |a|
    ensures AllHold(cs, a[..k])
  {
    forall i | 0 <= i < |cs|
      ensures HoldsOn(cs[i], a[..k])
    {
      HoldsOnPrefix(cs[i], a, k);
    }
  }

  lemma AllHoldAppend(cs: seq<Constraint>, ds: seq<Constraint>, a: seq<int>)
    ensures AllHold(cs + ds, a) <==> AllHold(cs, a) && AllHold(ds, a)
  {
    if AllHold(cs + ds, a) {
      forall i | 0 <= i < |cs|
        ensures HoldsOn(cs[i], a)
      {
        assert (cs + ds)[i] == cs[i];
      }
      forall i | 0 <= i < |ds|
        ensures HoldsOn(ds[i], a)
      {
        assert (cs + ds)[|cs| + i] == ds[i];
      }
    }
    if AllHold(cs, a) && AllHold(ds, a) {
      forall i | 0 <= i < |cs + ds|
        ensures HoldsOn((cs + ds)[i], a)
      {
        if i < |cs| {
          assert (cs + ds)[i] == cs[i];
        } else {
          assert (cs + ds)[i] == ds[i - |cs|];
        }
      }
    }
  }

  /** The variables of some cells. */
  function Indices(p: Puzzle, cells: seq<Cell>): (vs: seq<nat>)
    requires CellsInGrid(p, cells)
    ensures |vs| == |cells|
    ensures forall i :: 0 <= i < |vs| ==> vs[i] < Size(p)
  {
    seq(|cells|, i requires 0 <= i < |cells| => Index(p, cells[i]))
  }

  /** What `calc` posts for one segment: each cell at least 1, the sum, all different. */
  function Calc(p: Puzzle, s: Segment): seq<Constraint>
    requires CellsInGrid(p, s.cells)
  {
    var vs := Indices(p, s.cells);
    seq(|vs|, i requires 0 <= i < |vs| => AtLeast(vs[i], 1)) + [SumIs(vs, s.sum), AllDifferent(vs)]
  }

  function SegmentConstraints(p: Puzzle, ss: seq<Segment>): seq<Constraint>
    requires forall s :: s in ss ==> CellsInGrid(p, s.cells)
    decreases |ss|
  {
    if |ss| == 0 then [] else Calc(p, ss[0]) + SegmentConstraints(p, ss[1..])
  }

  /** Everything the program posts: the variable domains, the blanks, then each segment. */
  function Post(p: Puzzle): seq<Constraint>
    requires Valid(p)
  {
    seq(Size(p), k requires 0 <= k < Size(p) => Between(k, 0, 9))
    + seq(|p.blanks|, i requires 0 <= i < |p.blanks| => EqualTo(Index(p, p.blanks[i]), 0))
    + SegmentConstraints(p, p.segments)
  }

  /** The per-cell lower bounds of `calc` hold exactly when every value is at least 1. */
  lemma LowerBoundsHold(vs: seq<nat>, g: seq<int>)
    requires forall i :: 0 <= i < |vs| ==> vs[i] < |g|
    ensures var bounds := seq(|vs|, i requires 0 <= i < |vs| => AtLeast(vs[i], 1));
            AllHold(bounds, g) <==> forall i :: 0 <= i < |vs| ==> VarValues(vs, g)[i] >= 1
  {
    var bounds := seq(|vs|, i requires 0 <= i < |vs| => AtLeast(vs[i], 1));
    var xs := VarValues(vs, g);
    if AllHold(bounds, g) {
      forall i | 0 <= i < |xs| ensures xs[i] >= 1 {
        assert HoldsOn(bounds[i], g);
      }
    }
    if forall i :: 0 <= i < |xs| ==> xs[i] >= 1 {
      forall i | 0 <= i < |bounds| ensures HoldsOn(bounds[i], g) {
        assert bounds[i] == AtLeast(vs[i], 1) && g[vs[i]] == xs[i];
      }
    }
  }

  /** On a complete assignment `AllDifferent` holds exactly when the values are distinct. */
  lemma AllDifferentHolds(vs: seq<nat>, g: seq<int>)
    requires forall i :: 0 <= i < |vs| ==> vs[i] < |g|
    ensures HoldsOn(AllDifferent(vs), g) <==> Distinct(VarValues(vs, g))
  {
    var xs := VarValues(vs, g);
    forall i, j | 0 <= i < j < |vs|
      ensures g[vs[i]] == xs[i] && g[vs[j]] == xs[j]
    {
    }
  }

  /** A complete grid meets what `calc` posts for a segment exactly when the segment holds. */
  lemma CalcMeansSegmentHolds(p: Puzzle, s: Segment, g: seq<int>)
    requires CellsInGrid(p, s.cells) && |g| == Size(p)
    ensures AllHold(Calc(p, s), g) <==> SegmentHolds(p, s, g)
  {
    var vs := Indices(p, s.cells);
    var xs := Values(p, s.cells, g);
    assert VarValues(vs, g) == xs;
    var bounds := seq(|vs|, i requires 0 <= i < |vs| => AtLeast(vs[i], 1));
    var tail := [SumIs(vs, s.sum), AllDifferent(vs)];
    assert Calc(p, s) == bounds + tail;
    AllHoldAppend(bounds, tail, g);
    LowerBoundsHold(vs, g);
    AllDifferentHolds(vs, g);
    assert AllHold(tail, g) <==> HoldsOn(tail[0], g) && HoldsOn(tail[1], g);
  }

  lemma {:induction false} SegmentConstraintsMeanSegmentsHold(p: Puzzle, ss: seq<Segment>, g: seq<int>)
    requires forall s :: s in ss ==> CellsInGrid(p, s.cells)
    requires |g| == Size(p)
    ensures AllHold(SegmentConstraints(p, ss), g) <==> forall s :: s in ss ==> SegmentHolds(p, s, g)
    decreases |ss|
  {
    if |ss| > 0 {
      AllHoldAppend(Calc(p, ss[0]), SegmentConstraints(p, ss[1..]), g);
      CalcMeansSegmentHolds(p, ss[0], g);
      SegmentConstraintsMeanSegmentsHold(p, ss[1..], g);
      assert forall s :: s in ss <==> s == ss[0] || s in ss[1..] by {
        assert ss == [ss[0]] + ss[1..];
      }
    }
  }

  /**
    The constraints the program posts describe exactly the solutions:
    a complete grid meets all of them if and only if it satisfies the puzzle.
   */
  lemma PostMeansSatisfies(p: Puzzle, g: seq<int>)
    requires Valid(p) && |g| == Size(p)
    ensures AllHold(Post(p), g) <==> Satisfies(p, g)
  {
    var domain := seq(Size(p), k requires 0 <= k < Size(p) => Between(k, 0, 9));
    var blanks := seq(|p.blanks|, i requires 0 <= i < |p.blanks| => EqualTo(Index(p, p.blanks[i]), 0));
    var segs := SegmentConstraints(p, p.segments);
    AllHoldAppend(domain + blanks, segs, g);
    AllHoldAppend(domain, blanks, g);
    SegmentConstraintsMeanSegmentsHold(p, p.segments, g);
    assert AllHold(domain, g) <==> forall k :: 0 <= k < |g| ==> 0 <= g[k] <= 9 by {
      if AllHold(domain, g) {
        forall k | 0 <= k < |g| ensures 0 <= g[k] <= 9 {
          assert HoldsOn(domain[k], g);
        }
      }
    }
    assert AllHold(blanks, g) <==> forall c :: c in p.blanks ==> g[Index(p, c)] == 0 by {
      if AllHold(blanks, g) {
        forall c | c in p.blanks ensures g[Index(p, c)] == 0 {
          var i :| 0 <= i < |p.blanks| && p.blanks[i] == c;
          assert HoldsOn(blanks[i], g);
        }
      }
    }
  }

  /** A partial grid that meets every posted constraint as far as it is bound binds only digits. */
  lemma ConsistentDigit(p: Puzzle, a: seq<int>, k: nat)
    requires Valid(p) && AllHold(Post(p), a)
    requires k < |a| && k < Size(p)
    ensures 0 <= a[k] <= 9
  {
    assert Post(p)[k] == Between(k, 0, 9);
  }
}
