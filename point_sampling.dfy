/** The quadratic non-dominated filter of code/point_sampling.py:76-87. */
module PointSampling {
  import opened Dominance
  import opened Seqs

  /** Some input point that differs from `p` weakly dominates it. */
  predicate DominatedIn(points: seq<Point>, p: Point)
  {
    exists q | q in points :: q != p && WeaklyDominates(q, p)
  }

  function Undominated(points: seq<Point>): Point -> bool
  {
    p => !DominatedIn(points, p)
  }

  /** `remove_dominated_points`: for each point in turn, scans all points and
      stops at the first different one that weakly dominates it; the points
      that survive the scan are kept in input order. */
  method RemoveDominatedPoints(points: seq<Point>) returns (r: seq<Point>)
    ensures r == Filter(points, Undominated(points))
    ensures |r| <= |points|
    ensures forall x :: x in r <==> x in points && !DominatedIn(points, x)
    ensures forall a, b | a in r && b in r && a != b :: !WeaklyDominates(a, b)
  {
    r := [];
    for n := 0 to |points|
      invariant r == Filter(points[..n], Undominated(points))
    {
      var p1 := points[n];
      var dominated := false;
      var m := 0;
      while m < |points| && !dominated
        invariant 0 <= m <= |points|
        invariant dominated ==> DominatedIn(points, p1)
        invariant !dominated ==> forall k | 0 <= k < m :: !(points[k] != p1 && WeaklyDominates(points[k], p1))
      {
        var p2 := points[m];
        if WeaklyDominates(p2, p1) && p1 != p2 {
          dominated := true;
        }
        m := m + 1;
      }
      assert points[..n + 1] == points[..n] + [p1];
      FilterAppend(points[..n], p1, Undominated(points));
      if !dominated {
        r := r + [p1];
      }
    }
    assert points[..|points|] == points;
    FilterMembers(points, Undominated(points));
  }

  /** Equal copies never eliminate each other: every copy of a point that no
      different point dominates is kept. */
  lemma DuplicatesKept(points: seq<Point>, x: Point)
    requires x in points && !DominatedIn(points, x)
    ensures multiset(Filter(points, Undominated(points)))[x] == multiset(points)[x]
  {
    FilterKeepsCount(points, Undominated(points), x);
  }
}
